/** The dynamic linker of kernel/elf.c: the breadth-first DT_NEEDED expansion
    with one instance per library name, the placement of every object's segments,
    and relocation. File contents are reduced to what these read; the library
    directory is an oracle. */
module ElfLinker {
  import opened Counting
  import opened Options
  import opened Relocations

  const PAGE: nat := 4096
  const USER_VA_LIMIT: nat := 0x8000_0000_0000
  const USER_STACK_LIMIT: nat := 0x7FFF_FFFF_E000 - 16 * 4096
  const MAX_IMAGE_PAGES: nat := 8192
  const PIE_BASE: nat := 0x0040_0000
  const DSO_BASE: nat := 0x1000_0000
  const DSO_STRIDE: nat := 0x0200_0000
  const MAX_OBJECTS: nat := 8
  const MAX_AREAS: nat := 16

  type Size = n: nat | 0 < n witness 1

  /** A PT_LOAD header with p_memsz > 0; `inFile` is its file range check. */
  datatype Segment = Segment(vaddr: nat, memsz: Size, inFile: bool)

  /** What the linker reads of an ELF file. `needed` are the DT_NEEDED names,
      None where the string table does not hold one; `dynamicOk` is the verdict
      of parse_dynamic and `headerOk` that of ehdr_valid and the header table's
      bounds. */
  datatype Image = Image(headerOk: bool, isDyn: bool, dynamicOk: bool, segments: seq<Segment>, entry: nat,
                         needed: seq<Option<string>>, dyn: Dynamic)

  datatype Area = Area(start: nat, end: nat, owner: nat)

  datatype Object = Object(name: string, image: Image, base: nat)

  /** A name the linker accepts. */
  predicate NameOk(n: Option<string>) {
    n.Some? && '/' !in n.value && |n.value| < 60
  }

  function Floor(a: nat): nat { a / PAGE }
  function Ceil(a: nat): nat { (a + PAGE - 1) / PAGE }

  // ---- placing one object -----------------------------------------------

  /** The address range of a segment passes every check of register_segments. */
  predicate Placeable(s: Segment, base: nat) {
    && s.inFile && s.vaddr + s.memsz < WORD && base + s.vaddr < WORD && base + s.vaddr + s.memsz < WORD
    && PAGE <= base + s.vaddr && base + s.vaddr + s.memsz < USER_VA_LIMIT
    && base + s.vaddr + s.memsz <= USER_STACK_LIMIT
  }

  /** No page gap below any segment, counting from the object's address 0. */
  predicate PageContiguous(segs: seq<Segment>) {
    && (segs != [] ==> Floor(segs[0].vaddr) == 0)
    && forall i, j :: 0 <= i && j == i + 1 < |segs| ==> Floor(segs[j].vaddr) <= Ceil(segs[i].vaddr + segs[i].memsz)
  }

  /** Pages taken by the first `n` segments. */
  function Pages(segs: seq<Segment>, base: nat, n: nat): int
    requires n <= |segs|
  {
    if n == 0 then 0
    else
      var s := segs[n - 1];
      Pages(segs, base, n - 1) + Ceil(base + s.vaddr + s.memsz) - Floor(base + s.vaddr)
  }

  function SegmentArea(s: Segment, base: nat, owner: nat): Area {
    Area(base + s.vaddr, base + s.vaddr + s.memsz, owner)
  }

  function SegmentAreas(segs: seq<Segment>, base: nat, owner: nat): (r: seq<Area>)
    ensures |r| == |segs| && forall i :: 0 <= i < |segs| ==> r[i] == SegmentArea(segs[i], base, owner)
  {
    seq(|segs|, i requires 0 <= i < |segs| => SegmentArea(segs[i], base, owner))
  }

  lemma CeilShift(base: nat, a: nat)
    requires base % PAGE == 0
    ensures Ceil(base + a) == base / PAGE + Ceil(a) && Floor(base + a) == base / PAGE + Floor(a)
  {
  }

  /** Without gaps the pages counted bound the object's whole extent. */
  lemma {:induction false} PagesBoundExtent(segs: seq<Segment>, base: nat, n: nat, k: nat)
    requires base % PAGE == 0 && PageContiguous(segs) && k < n <= |segs|
    ensures Ceil(segs[k].vaddr + segs[k].memsz) <= Pages(segs, base, n)
    ensures 0 <= Pages(segs, base, n)
    decreases n
  {
    var s := segs[n - 1];
    CeilShift(base, s.vaddr + s.memsz);
    CeilShift(base, s.vaddr);
    assert Floor(s.vaddr) <= Ceil(s.vaddr + s.memsz);
    assert Floor(segs[n - 1].vaddr) <= if n == 1 then 0 else Ceil(segs[n - 2].vaddr + segs[n - 2].memsz);
    assert Pages(segs, base, n) == Pages(segs, base, n - 1) + Ceil(s.vaddr + s.memsz) - Floor(s.vaddr);
    if n > 1 {
      PagesBoundExtent(segs, base, n - 1, if k < n - 1 then k else n - 2);
      PagesBoundExtent(segs, base, n - 1, n - 2);
    }
  }

  /** So a placed object without gaps stays within one stride of its base. */
  lemma ExtentWithinStride(segs: seq<Segment>, base: nat, k: nat)
    requires base % PAGE == 0 && PageContiguous(segs) && k < |segs| && Pages(segs, base, |segs|) <= MAX_IMAGE_PAGES
    ensures base + segs[k].vaddr + segs[k].memsz <= base + DSO_STRIDE
  {
    PagesBoundExtent(segs, base, |segs|, k);
  }

  // ---- the dependency graph ---------------------------------------------

  /** Where in the object list a name is asked for: object, then position. */
  datatype Need = Need(obj: nat, pos: nat)

  predicate Before(a: Need, b: Need) { a.obj < b.obj || (a.obj == b.obj && a.pos < b.pos) }

  predicate Asks(objs: seq<Object>, a: Need, name: string) {
    a.obj < |objs| && a.pos < |objs[a.obj].image.needed| && objs[a.obj].image.needed[a.pos] == Some(name)
  }

  /** A node of the graph: the program, or a library by name. */
  type Node = Option<string>

  function NodeOf(objs: seq<Object>, j: nat): Node
    requires j < |objs|
  {
    if j == 0 then None else Some(objs[j].name)
  }

  function ImageOf(lib: string -> Option<Image>, prog: Image, x: Node): Option<Image> {
    if x == None then Some(prog) else lib(x.value)
  }

  ghost predicate NeedsNode(lib: string -> Option<Image>, prog: Image, x: Node, y: Node) {
    y.Some? && ImageOf(lib, prog, x).Some? && y in ImageOf(lib, prog, x).value.needed
  }

  ghost function NeededGraph(lib: string -> Option<Image>, prog: Image): (Node, Node) -> bool {
    (x: Node, y: Node) => NeedsNode(lib, prog, x, y)
  }

  /** `d` is the least number of NEEDED steps from the program to `x`. */
  ghost predicate Distance(edge: (Node, Node) -> bool, x: Node, d: nat) {
    && (exists p: seq<Node> :: Walk(edge, p) && p[0] == None && p[|p| - 1] == x && |p| == d + 1)
    && (forall p: seq<Node> :: Walk(edge, p) && p[0] == None && p[|p| - 1] == x ==> |p| >= d + 1)
  }

  /** The list so far: distinct libraries, each found where `disc` says, in the
      order they were found. */
  ghost predicate Listed(lib: string -> Option<Image>, prog: Image, objs: seq<Object>, disc: seq<Need>) {
    && |objs| >= 1 && |disc| == |objs| && objs[0].image == prog
    && (forall j :: 1 <= j < |objs| ==> lib(objs[j].name) == Some(objs[j].image))
    && (forall i, j :: 1 <= i < j < |objs| ==> objs[i].name != objs[j].name)
    && (forall j :: 1 <= j < |objs| ==> disc[j].obj < j && Asks(objs, disc[j], objs[j].name))
    && (forall i, j :: 1 <= i < j < |objs| ==> Before(disc[i], disc[j]))
  }

  /** What `a` asks for is in the list, found there or earlier. */
  ghost predicate Resolved(objs: seq<Object>, disc: seq<Need>, a: Need) {
    && |disc| == |objs| && a.obj < |objs| && a.pos < |objs[a.obj].image.needed|
    && NameOk(objs[a.obj].image.needed[a.pos])
    && forall name :: Asks(objs, a, name) ==>
      exists j :: 1 <= j < |objs| && objs[j].name == name && !Before(a, disc[j])
  }

  ghost predicate AllResolved(objs: seq<Object>, disc: seq<Need>) {
    forall a: Need :: a.obj < |objs| && a.pos < |objs[a.obj].image.needed| ==> Resolved(objs, disc, a)
  }

  // ---- breadth first ----------------------------------------------------

  /** Steps from the program along the objects that first asked. */
  ghost function Level(disc: seq<Need>, j: nat): nat
    requires j < |disc| && forall i :: 1 <= i < |disc| ==> disc[i].obj < i
    decreases j
  {
    if j == 0 then 0 else 1 + Level(disc, disc[j].obj)
  }

  lemma {:induction false} LevelMonotone(lib: string -> Option<Image>, prog: Image, objs: seq<Object>, disc: seq<Need>,
                                         i: nat, j: nat)
    requires Listed(lib, prog, objs, disc) && i <= j < |objs|
    ensures Level(disc, i) <= Level(disc, j)
    decreases j
  {
    if 0 < i < j {
      assert Before(disc[i], disc[j]);
      LevelMonotone(lib, prog, objs, disc, disc[i].obj, disc[j].obj);
    }
  }

  /** One NEEDED step raises the level by at most one, and stays in the list. */
  lemma StepLevel(lib: string -> Option<Image>, prog: Image, objs: seq<Object>, disc: seq<Need>, i: nat,
                  y: Node) returns (j: nat)
    requires Listed(lib, prog, objs, disc) && AllResolved(objs, disc)
    requires i < |objs| && NeedsNode(lib, prog, NodeOf(objs, i), y)
    ensures 1 <= j < |objs| && NodeOf(objs, j) == y && Level(disc, j) <= Level(disc, i) + 1
  {
    assert ImageOf(lib, prog, NodeOf(objs, i)) == Some(objs[i].image);
    var n :| 0 <= n < |objs[i].image.needed| && objs[i].image.needed[n] == y;
    assert Resolved(objs, disc, Need(i, n)) && Asks(objs, Need(i, n), y.value);
    j :| 1 <= j < |objs| && objs[j].name == y.value && !Before(Need(i, n), disc[j]);
    LevelMonotone(lib, prog, objs, disc, disc[j].obj, i);
  }

  /** A walk from the program stays in the list and is no shorter than the level
      of where it ends. */
  lemma {:induction false} WalkLevel(lib: string -> Option<Image>, prog: Image, objs: seq<Object>, disc: seq<Need>,
                                     p: seq<Node>)
    returns (j: nat)
    requires Listed(lib, prog, objs, disc) && AllResolved(objs, disc)
    requires Walk(NeededGraph(lib, prog), p) && p[0] == None
    ensures j < |objs| && NodeOf(objs, j) == p[|p| - 1] && Level(disc, j) + 1 <= |p|
    decreases |p|
  {
    if |p| == 1 {
      j := 0;
    } else {
      var q := p[..|p| - 1];
      var edge := NeededGraph(lib, prog);
      forall a, b | 0 <= a && b == a + 1 < |q|
        ensures edge(q[a], q[b])
      {
        assert edge(p[a], p[b]);
      }
      var i := WalkLevel(lib, prog, objs, disc, q);
      assert edge(p[|p| - 2], p[|p| - 1]);
      j := StepLevel(lib, prog, objs, disc, i, p[|p| - 1]);
    }
  }

  /** The objects that first asked give a walk of exactly the level's length. */
  lemma {:induction false} LevelWalk(lib: string -> Option<Image>, prog: Image, objs: seq<Object>, disc: seq<Need>,
                                     j: nat)
    returns (p: seq<Node>)
    requires Listed(lib, prog, objs, disc) && j < |objs|
    ensures Walk(NeededGraph(lib, prog), p) && p[0] == None
    ensures p[|p| - 1] == NodeOf(objs, j) && |p| == Level(disc, j) + 1
    decreases j
  {
    if j == 0 {
      p := [None];
    } else {
      var i := disc[j].obj;
      var q := LevelWalk(lib, prog, objs, disc, i);
      p := q + [NodeOf(objs, j)];
      assert Asks(objs, disc[j], objs[j].name);
      assert objs[i].image.needed[disc[j].pos] == NodeOf(objs, j);
      var edge := NeededGraph(lib, prog);
      assert edge(NodeOf(objs, i), NodeOf(objs, j));
      forall a, b | 0 <= a && b == a + 1 < |p|
        ensures edge(p[a], p[b])
      {
        if b < |q| { assert edge(q[a], q[b]); }
      }
    }
  }

  lemma LevelIsDistance(lib: string -> Option<Image>, prog: Image, objs: seq<Object>, disc: seq<Need>, j: nat)
    requires Listed(lib, prog, objs, disc) && AllResolved(objs, disc) && j < |objs|
    ensures Distance(NeededGraph(lib, prog), NodeOf(objs, j), Level(disc, j))
  {
    hide AllResolved, Level;
    var edge := NeededGraph(lib, prog);
    var w := LevelWalk(lib, prog, objs, disc, j);
    forall p: seq<Node> | Walk(edge, p) && p[0] == None && p[|p| - 1] == NodeOf(objs, j)
      ensures |p| >= Level(disc, j) + 1
    {
      var i := WalkLevel(lib, prog, objs, disc, p);
      NodeIsUnique(lib, prog, objs, disc, i, j);
    }
  }

  lemma NodeIsUnique(lib: string -> Option<Image>, prog: Image, objs: seq<Object>, disc: seq<Need>, i: nat, j: nat)
    requires Listed(lib, prog, objs, disc) && i < |objs| && j < |objs| && NodeOf(objs, i) == NodeOf(objs, j)
    ensures i == j
  {
  }

  // ---- the linker -------------------------------------------------------

  /** Every need before `at` has been dealt with, and nothing after it. */
  ghost predicate Expanded(objs: seq<Object>, disc: seq<Need>, at: Need) {
    && |disc| == |objs|
    && (forall j :: 1 <= j < |objs| ==> Before(disc[j], at))
    && (forall a: Need :: a.obj < |objs| && a.pos < |objs[a.obj].image.needed| && Before(a, at) ==>
          Resolved(objs, disc, a))
    && (forall j :: 0 <= j < |objs| && j < at.obj ==> objs[j].image.dynamicOk)
  }

  lemma ResolvedBy(objs: seq<Object>, disc: seq<Need>, a: Need, name: string, j: nat)
    requires |disc| == |objs| && Asks(objs, a, name) && NameOk(Some(name))
    requires 1 <= j < |objs| && objs[j].name == name && Before(disc[j], a)
    ensures Resolved(objs, disc, a)
  {
  }

  /** A need whose name is already listed. */
  lemma FoundGood(lib: string -> Option<Image>, prog: Image, objs: seq<Object>, disc: seq<Need>, a: Need, name: string,
                  j: nat)
    requires Listed(lib, prog, objs, disc) && Expanded(objs, disc, a) && Asks(objs, a, name) && NameOk(Some(name))
    requires 1 <= j < |objs| && objs[j].name == name
    ensures Expanded(objs, disc, Need(a.obj, a.pos + 1))
  {
    hide Resolved, NameOk;
    ResolvedBy(objs, disc, a, name, j);
    forall b: Need | b.obj < |objs| && b.pos < |objs[b.obj].image.needed| && Before(b, Need(a.obj, a.pos + 1))
      ensures Resolved(objs, disc, b)
    {
      if b != a { assert Before(b, a); }
    }
  }

  /** A need whose library is appended. */
  lemma AppendGood(lib: string -> Option<Image>, prog: Image, objs: seq<Object>, disc: seq<Need>, a: Need, o: Object)
    requires Listed(lib, prog, objs, disc) && Expanded(objs, disc, a) && Asks(objs, a, o.name) && NameOk(Some(o.name))
    requires lib(o.name) == Some(o.image) && Unlisted(objs, o.name)
    ensures Listed(lib, prog, objs + [o], disc + [a])
    ensures Expanded(objs + [o], disc + [a], Need(a.obj, a.pos + 1))
  {
    hide Resolved, NameOk, Listed;
    ListedMore(lib, prog, objs, disc, a, o);
    ExpandedMore(objs, disc, a, o);
  }

  lemma ListedMore(lib: string -> Option<Image>, prog: Image, objs: seq<Object>, disc: seq<Need>, a: Need, o: Object)
    requires Listed(lib, prog, objs, disc) && Asks(objs, a, o.name)
    requires forall j :: 1 <= j < |objs| ==> Before(disc[j], a)
    requires lib(o.name) == Some(o.image) && Unlisted(objs, o.name)
    ensures Listed(lib, prog, objs + [o], disc + [a]) && 1 <= |objs|
  {
    hide Before;
    var objs', disc' := objs + [o], disc + [a];
    forall j | 1 <= j < |objs'|
      ensures disc'[j].obj < j && Asks(objs', disc'[j], objs'[j].name)
    {
      if j < |objs| { assert Asks(objs, disc[j], objs[j].name); }
    }
  }

  lemma ExpandedMore(objs: seq<Object>, disc: seq<Need>, a: Need, o: Object)
    requires 1 <= |objs| && Expanded(objs, disc, a) && Asks(objs, a, o.name) && NameOk(Some(o.name))
    ensures Expanded(objs + [o], disc + [a], Need(a.obj, a.pos + 1))
  {
    hide Resolved, NameOk;
    var objs', disc', next := objs + [o], disc + [a], Need(a.obj, a.pos + 1);
    forall b: Need | b.obj < |objs'| && b.pos < |objs'[b.obj].image.needed| && Before(b, next)
      ensures Resolved(objs', disc', b)
    {
      if b == a {
        ResolvedByLast(objs, disc, a, o);
      } else {
        assert Before(b, a);
        ResolvedStays(objs, disc, o, a, b);
      }
    }
  }

  lemma ResolvedByLast(objs: seq<Object>, disc: seq<Need>, a: Need, o: Object)
    requires |disc| == |objs| && 1 <= |objs| && Asks(objs, a, o.name) && NameOk(Some(o.name))
    ensures Resolved(objs + [o], disc + [a], a)
  {
    assert (objs + [o])[|objs|] == o && (disc + [a])[|objs|] == a;
  }

  lemma ResolvedStays(objs: seq<Object>, disc: seq<Need>, o: Object, d: Need, b: Need)
    requires Resolved(objs, disc, b) && b.obj < |objs|
    ensures Resolved(objs + [o], disc + [d], b)
  {
    var objs', disc' := objs + [o], disc + [d];
    forall name | Asks(objs', b, name)
      ensures exists j :: 1 <= j < |objs'| && objs'[j].name == name && !Before(b, disc'[j])
    {
      assert Asks(objs, b, name);
      var j :| 1 <= j < |objs| && objs[j].name == name && !Before(b, disc[j]);
      assert objs'[j].name == name && disc'[j] == disc[j];
    }
  }

  ghost predicate SegmentOk(segs: seq<Segment>, base: nat, k: nat)
    requires k < |segs|
  {
    Placeable(segs[k], base) && Pages(segs, base, k + 1) <= MAX_IMAGE_PAGES
  }

  /** register_segments accepts an image when `used` areas are taken. */
  ghost predicate Mappable(img: Image, base: nat, used: nat) {
    var segs := img.segments;
    && img.headerOk && segs != [] && used + |segs| <= MAX_AREAS
    && forall k :: 0 <= k < |segs| ==> SegmentOk(segs, base, k)
  }

  /** Entry point checks of elf_load. */
  predicate EntryOk(areas: seq<Area>, entry: nat) {
    PAGE <= entry < USER_VA_LIMIT && exists a :: a in areas && a.start <= entry < a.end
  }

  function EntryOf(prog: Image): nat { (BaseOf(prog, 0) + prog.entry) % WORD }

  predicate EntryMapped(prog: Image) {
    EntryOk(SegmentAreas(prog.segments, BaseOf(prog, 0), 0), EntryOf(prog))
  }

  /** `m` is where the highest area ends. */
  ghost predicate Top(areas: seq<Area>, m: nat) {
    if areas == [] then m == 0 else exists a :: a in areas && a.end == m
  }

  lemma TopMore(areas: seq<Area>, m: nat, a: Area)
    requires Top(areas, m)
    ensures Top(areas + [a], if a.end > m then a.end else m)
  {
    assert a in areas + [a];
  }

  ghost function AreasUsed(objs: seq<Object>): nat {
    if objs == [] then 0 else AreasUsed(objs[..|objs| - 1]) + |objs[|objs| - 1].image.segments|
  }

  /** Something `objs[a.obj]` says or asks for stops the linker. */
  ghost predicate Stops(lib: string -> Option<Image>, prog: Image, objs: seq<Object>, a: Need)
    requires a.obj < |objs|
  {
    var img := objs[a.obj].image;
    || !img.dynamicOk
    || (a.pos < |img.needed| &&
        (|| !NameOk(img.needed[a.pos])
         || (&& Unlisted(objs, img.needed[a.pos].value)
             && !(&& |objs| < MAX_OBJECTS && lib(img.needed[a.pos].value).Some?
                  && lib(img.needed[a.pos].value).value.isDyn
                  && Mappable(lib(img.needed[a.pos].value).value, BaseOf(prog, |objs|), AreasUsed(objs))))))
  }

  ghost predicate Unlisted(objs: seq<Object>, name: string) {
    forall j :: 1 <= j < |objs| ==> objs[j].name != name
  }

  /** The linker cannot go beyond `objs`. */
  ghost predicate Refused(lib: string -> Option<Image>, prog: Image, objs: seq<Object>) {
    if objs == [] then
      !(Mappable(prog, BaseOf(prog, 0), 0) && EntryMapped(prog))
    else exists a: Need :: a.obj < |objs| && Stops(lib, prog, objs, a)
  }

  lemma NotRefused(lib: string -> Option<Image>, prog: Image, objs: seq<Object>, disc: seq<Need>)
    requires Listed(lib, prog, objs, disc) && Expanded(objs, disc, Need(|objs|, 0))
    ensures !Refused(lib, prog, objs)
  {
    hide Mappable, AreasUsed;
    forall a: Need | a.obj < |objs|
      ensures !Stops(lib, prog, objs, a)
    {
      if a.pos < |objs[a.obj].image.needed| {
        assert Before(a, Need(|objs|, 0));
        assert Resolved(objs, disc, a);
        assert Asks(objs, a, objs[a.obj].image.needed[a.pos].value);
      }
    }
  }

  /** Where an object goes. */
  function BaseOf(prog: Image, j: nat): nat {
    if j == 0 then (if prog.isDyn then PIE_BASE else 0) else DSO_BASE + (j - 1) * DSO_STRIDE
  }

  /** Object `j` is mapped: every segment checked, within the page cap, and in
      the area list. */
  ghost predicate Mapped(prog: Image, objs: seq<Object>, areas: seq<Area>, j: nat)
    requires j < |objs|
  {
    var segs := objs[j].image.segments;
    && objs[j].base == BaseOf(prog, j) && segs != []
    && Pages(segs, objs[j].base, |segs|) <= MAX_IMAGE_PAGES
    && forall k :: 0 <= k < |segs| ==>
         Placeable(segs[k], objs[j].base) && SegmentArea(segs[k], objs[j].base, j) in areas
  }

  /** Every area is a segment of its owner and ends at or below `maxEnd`. */
  ghost predicate AreasOwned(objs: seq<Object>, areas: seq<Area>, maxEnd: nat) {
    forall a :: a in areas ==>
      && a.owner < |objs| && a.end <= maxEnd
      && exists k :: 0 <= k < |objs[a.owner].image.segments| &&
                     a == SegmentArea(objs[a.owner].image.segments[k], objs[a.owner].base, a.owner)
  }

  ghost predicate AllMapped(prog: Image, objs: seq<Object>, areas: seq<Area>, maxEnd: nat) {
    && AreasOwned(objs, areas, maxEnd)
    && forall j :: 0 <= j < |objs| ==> Mapped(prog, objs, areas, j)
  }

  // ---- keeping apart ----------------------------------------------------

  predicate Apart(a: Area, b: Area) { a.end <= b.start || b.end <= a.start }

  /** The stretch of addresses meant for object `j`. */
  function Slot(prog: Image, j: nat): Area { Area(BaseOf(prog, j), BaseOf(prog, j) + DSO_STRIDE, j) }

  /** All segments lie within one stride of the base. */
  predicate InSlot(img: Image) {
    forall k :: 0 <= k < |img.segments| ==> img.segments[k].vaddr + img.segments[k].memsz <= DSO_STRIDE
  }

  lemma BasesApart(prog: Image, i: nat, j: nat)
    requires prog.isDyn && i != j
    ensures BaseOf(prog, i) % PAGE == 0 && Apart(Slot(prog, i), Slot(prog, j))
  {
  }

  /** Objects that stay in their slots never overlap. */
  lemma SlotsDisjoint(prog: Image, objs: seq<Object>, areas: seq<Area>, maxEnd: nat, a: Area, b: Area)
    requires AllMapped(prog, objs, areas, maxEnd) && |objs| >= 1 && objs[0].image == prog && prog.isDyn
    requires forall j :: 0 <= j < |objs| ==> InSlot(objs[j].image)
    requires a in areas && b in areas && a.owner != b.owner
    ensures Apart(a, b)
  {
    hide Placeable, Pages;
    var i, j := a.owner, b.owner;
    assert Mapped(prog, objs, areas, i) && Mapped(prog, objs, areas, j);
    var k :| 0 <= k < |objs[i].image.segments| && a == SegmentArea(objs[i].image.segments[k], objs[i].base, i);
    var l :| 0 <= l < |objs[j].image.segments| && b == SegmentArea(objs[j].image.segments[l], objs[j].base, j);
    BasesApart(prog, i, j);
  }

  /** In particular when no segment leaves a page gap: the page cap then keeps an
      image in its slot. */
  lemma ObjectsDisjoint(prog: Image, objs: seq<Object>, areas: seq<Area>, maxEnd: nat, a: Area, b: Area)
    requires AllMapped(prog, objs, areas, maxEnd) && |objs| >= 1 && objs[0].image == prog && prog.isDyn
    requires forall j :: 0 <= j < |objs| ==> PageContiguous(objs[j].image.segments)
    requires a in areas && b in areas && a.owner != b.owner
    ensures Apart(a, b)
  {
    forall j | 0 <= j < |objs|
      ensures InSlot(objs[j].image)
    {
      assert Mapped(prog, objs, areas, j);
      BasesApart(prog, j, j + 1);
      forall k | 0 <= k < |objs[j].image.segments|
        ensures objs[j].image.segments[k].vaddr + objs[j].image.segments[k].memsz <= DSO_STRIDE
      {
        ExtentWithinStride(objs[j].image.segments, objs[j].base, k);
      }
    }
    SlotsDisjoint(prog, objs, areas, maxEnd, a, b);
  }

  /** Placed as object `i`, no segment reaches into the slot of another object. */
  ghost predicate KeepsOut(prog: Image, img: Image, i: nat) {
    forall k, j :: 0 <= k < |img.segments| && 0 <= j < MAX_OBJECTS && j != i ==>
      Apart(SegmentArea(img.segments[k], BaseOf(prog, i), i), Slot(prog, j))
  }

  /** `img` as object `i` and `other` as object `j` share no address. */
  ghost predicate ImagesApart(prog: Image, img: Image, i: nat, other: Image, j: nat) {
    forall k, l :: 0 <= k < |img.segments| && 0 <= l < |other.segments| ==>
      Apart(SegmentArea(img.segments[k], BaseOf(prog, i), i), SegmentArea(other.segments[l], BaseOf(prog, j), j))
  }

  /** The exact condition on one image: it gets along with every image that stays
      in its own slot if and only if it keeps out of the other slots, gaps or
      not. */
  lemma KeepsOutExact(prog: Image, img: Image, i: nat)
    requires prog.isDyn
    ensures KeepsOut(prog, img, i) <==>
      forall j, other :: 0 <= j < MAX_OBJECTS && j != i && InSlot(other) && Mappable(other, BaseOf(prog, j), 0) ==>
        ImagesApart(prog, img, i, other, j)
  {
    if !KeepsOut(prog, img, i) {
      var k, j :| 0 <= k < |img.segments| && 0 <= j < MAX_OBJECTS && j != i &&
        !Apart(SegmentArea(img.segments[k], BaseOf(prog, i), i), Slot(prog, j));
      var other := Intruded(prog, img, i, k, j);
    } else {
      forall j, other | 0 <= j < MAX_OBJECTS && j != i && InSlot(other)
        ensures ImagesApart(prog, img, i, other, j)
      {
        KeptOut(prog, img, i, other, j);
      }
    }
  }

  lemma KeptOut(prog: Image, img: Image, i: nat, other: Image, j: nat)
    requires KeepsOut(prog, img, i) && j < MAX_OBJECTS && j != i && InSlot(other)
    ensures ImagesApart(prog, img, i, other, j)
  {
    forall k, l | 0 <= k < |img.segments| && 0 <= l < |other.segments|
      ensures Apart(SegmentArea(img.segments[k], BaseOf(prog, i), i),
                    SegmentArea(other.segments[l], BaseOf(prog, j), j))
    {
      assert Apart(SegmentArea(img.segments[k], BaseOf(prog, i), i), Slot(prog, j));
    }
  }

  /** A one-page neighbour where segment `k` of object `i` reaches into slot `j`. */
  /** No symbols and nothing to relocate. */
  const NO_DYNAMIC: Dynamic := Dynamic([], Some([]), Some([]))

  lemma Intruded(prog: Image, img: Image, i: nat, k: nat, j: nat) returns (other: Image)
    requires prog.isDyn && k < |img.segments| && j < MAX_OBJECTS && j != i
    requires !Apart(SegmentArea(img.segments[k], BaseOf(prog, i), i), Slot(prog, j))
    ensures InSlot(other) && Mappable(other, BaseOf(prog, j), 0) && !ImagesApart(prog, img, i, other, j)
  {
    var a, base := SegmentArea(img.segments[k], BaseOf(prog, i), i), BaseOf(prog, j);
    var x := if a.start < base then base else a.start;
    var page := (x - base) / PAGE * PAGE;
    var t := Segment(page, PAGE, true);
    other := Image(true, true, true, [t], 0, [], NO_DYNAMIC);
    assert page <= x - base < page + PAGE;
    OnePage(t, base);
    assert other.segments[0] == t;
  }

  lemma OnePage(t: Segment, base: nat)
    requires base % PAGE == 0 && t.vaddr % PAGE == 0 && t.memsz == PAGE && t.inFile
    requires PAGE <= base + t.vaddr < 0x4000_0000
    ensures SegmentOk([t], base, 0)
  {
    CeilShift(base, t.vaddr + PAGE);
    CeilShift(base, t.vaddr);
    assert Pages([t], base, 0) == 0;
    assert Pages([t], base, 1) == Ceil(t.vaddr + PAGE) - Floor(t.vaddr);
  }

  // ---- the list as a function -------------------------------------------

  /** The names with those of `needed` that are new, in order. */
  function WithNew(names: seq<string>, needed: seq<Option<string>>): (r: seq<string>)
    ensures names <= r
    decreases |needed|
  {
    if needed == [] then names
    else
      var n := needed[0];
      WithNew(if n.None? || n.value in names then names else names + [n.value], needed[1..])
  }

  /** What the i-th object of the list asks for. */
  function NeedsOf(lib: string -> Option<Image>, prog: Image, names: seq<string>, i: nat): seq<Option<string>>
    requires i <= |names|
  {
    if i == 0 then prog.needed else if lib(names[i - 1]).Some? then lib(names[i - 1]).value.needed else []
  }

  /** Go through the list from the i-th object on, adding what is new. */
  function Closing(lib: string -> Option<Image>, prog: Image, names: seq<string>, i: nat): (r: Option<seq<string>>)
    requires i <= |names| + 1 && |names| < MAX_OBJECTS
    ensures r.Some? ==> names <= r.value && |r.value| < MAX_OBJECTS
    decreases MAX_OBJECTS - i
  {
    if i > |names| then Some(names)
    else
      var more := WithNew(names, NeedsOf(lib, prog, names, i));
      if |more| >= MAX_OBJECTS then None else Closing(lib, prog, more, i + 1)
  }

  /** The libraries of a program, breadth first, each once; None if they are too
      many. */
  function Libraries(lib: string -> Option<Image>, prog: Image): Option<seq<string>> {
    Closing(lib, prog, [], 0)
  }

  predicate Found(lib: string -> Option<Image>, names: seq<string>) {
    forall i :: 0 <= i < |names| ==> lib(names[i]).Some?
  }

  function ObjectsOf(lib: string -> Option<Image>, prog: Image, names: seq<string>): (r: seq<Object>)
    requires Found(lib, names)
    ensures |r| == |names| + 1
  {
    [Object("<main>", prog, BaseOf(prog, 0))] +
    seq(|names|, i requires 0 <= i < |names| => Object(names[i], lib(names[i]).value, BaseOf(prog, i + 1)))
  }

  function NamesOf(objs: seq<Object>): (r: seq<string>)
    requires objs != []
    ensures |r| == |objs| - 1
  {
    seq(|objs| - 1, i requires 0 <= i < |objs| - 1 => objs[i + 1].name)
  }

  /** Object `j` can be mapped after the ones before it, and what it asks for can be
      asked for. */
  ghost predicate Admissible(prog: Image, objs: seq<Object>, j: nat)
    requires j < |objs|
  {
    && Fits(prog, objs, j) && objs[j].image.dynamicOk
    && forall n :: n in objs[j].image.needed ==> NameOk(n)
  }

  ghost predicate Fits(prog: Image, objs: seq<Object>, j: nat)
    requires j < |objs|
  {
    Mappable(objs[j].image, BaseOf(prog, j), AreasUsed(objs[..j])) && (j > 0 ==> objs[j].image.isDyn)
  }

  /** The libraries are within the limits and can all be used. */
  ghost predicate Linkable(lib: string -> Option<Image>, prog: Image) {
    && Libraries(lib, prog).Some? && Found(lib, Libraries(lib, prog).value) && EntryMapped(prog)
    && Acceptable(prog, ObjectsOf(lib, prog, Libraries(lib, prog).value))
  }

  ghost predicate Acceptable(prog: Image, objs: seq<Object>) {
    forall j :: 0 <= j < |objs| ==> Admissible(prog, objs, j)
  }

  /** The list so far is what its names stand for, and fits. */
  ghost predicate Built(lib: string -> Option<Image>, prog: Image, objs: seq<Object>) {
    && objs != [] && Found(lib, NamesOf(objs)) && objs == ObjectsOf(lib, prog, NamesOf(objs))
    && forall j :: 0 <= j < |objs| ==> Fits(prog, objs, j)
  }

  /** What the list becomes from `a` on. */
  function Rest(lib: string -> Option<Image>, prog: Image, objs: seq<Object>, a: Need): Option<seq<string>>
    requires a.obj < |objs| && a.pos <= |objs[a.obj].image.needed|
  {
    var more := WithNew(NamesOf(objs), objs[a.obj].image.needed[a.pos..]);
    if |more| >= MAX_OBJECTS then None else Closing(lib, prog, more, a.obj + 1)
  }

  lemma RestFound(lib: string -> Option<Image>, prog: Image, objs: seq<Object>, a: Need, name: string, j: nat)
    requires Asks(objs, a, name) && 1 <= j < |objs| && objs[j].name == name
    ensures Rest(lib, prog, objs, a) == Rest(lib, prog, objs, Need(a.obj, a.pos + 1))
  {
    hide Closing, WithNew;
    assert NamesOf(objs)[j - 1] == name;
    OneName(NamesOf(objs), objs[a.obj].image.needed, a.pos);
  }

  lemma OneName(names: seq<string>, needed: seq<Option<string>>, pos: nat)
    requires pos < |needed| && needed[pos].Some?
    ensures WithNew(names, needed[pos..]) ==
      WithNew(if needed[pos].value in names then names else names + [needed[pos].value], needed[pos + 1..])
  {
    assert needed[pos..][1..] == needed[pos + 1..];
  }

  lemma NamesMore(objs: seq<Object>, o: Object)
    requires objs != []
    ensures NamesOf(objs + [o]) == NamesOf(objs) + [o.name]
  {
  }

  lemma NotNamed(objs: seq<Object>, name: string)
    requires objs != [] && Unlisted(objs, name)
    ensures name !in NamesOf(objs)
  {
  }

  lemma RestMore(lib: string -> Option<Image>, prog: Image, objs: seq<Object>, a: Need, o: Object)
    requires Asks(objs, a, o.name) && Unlisted(objs, o.name)
    ensures Rest(lib, prog, objs, a) == Rest(lib, prog, objs + [o], Need(a.obj, a.pos + 1))
  {
    hide Closing, WithNew, NamesOf, Unlisted;
    NamesMore(objs, o);
    NotNamed(objs, o.name);
    OneName(NamesOf(objs), objs[a.obj].image.needed, a.pos);
  }

  /** When an object has been gone through. */
  lemma RestNext(lib: string -> Option<Image>, prog: Image, objs: seq<Object>, i: nat)
    requires Built(lib, prog, objs) && i < |objs| <= MAX_OBJECTS
    ensures Rest(lib, prog, objs, Need(i, |objs[i].image.needed|)) ==
      if i + 1 < |objs| then Rest(lib, prog, objs, Need(i + 1, 0)) else Some(NamesOf(objs))
  {
    hide Fits;
    var names := NamesOf(objs);
    assert objs[i].image.needed[|objs[i].image.needed|..] == [];
    assert WithNew(names, []) == names;
    if i + 1 < |objs| {
      assert NeedsOf(lib, prog, names, i + 1) == objs[i + 1].image.needed == objs[i + 1].image.needed[0..];
    }
  }

  lemma RestStart(lib: string -> Option<Image>, prog: Image, o: Object)
    requires o == Object("<main>", prog, BaseOf(prog, 0)) && Mappable(prog, BaseOf(prog, 0), 0)
    ensures Built(lib, prog, [o]) && Rest(lib, prog, [o], Need(0, 0)) == Libraries(lib, prog)
  {
    assert NamesOf([o]) == [] && [o][..0] == [];
    assert ObjectsOf(lib, prog, []) == [o];
    assert prog.needed[0..] == prog.needed == NeedsOf(lib, prog, [], 0);
  }

  lemma ObjectsMore(lib: string -> Option<Image>, prog: Image, names: seq<string>, o: Object)
    requires Found(lib, names) && lib(o.name) == Some(o.image) && o.base == BaseOf(prog, |names| + 1)
    ensures Found(lib, names + [o.name])
    ensures ObjectsOf(lib, prog, names + [o.name]) == ObjectsOf(lib, prog, names) + [o]
  {
  }

  lemma BuiltMore(lib: string -> Option<Image>, prog: Image, objs: seq<Object>, o: Object)
    requires Built(lib, prog, objs) && lib(o.name) == Some(o.image) && o.base == BaseOf(prog, |objs|) && o.image.isDyn
    requires Mappable(o.image, o.base, AreasUsed(objs))
    ensures Built(lib, prog, objs + [o])
  {
    hide Mappable, AreasUsed, NamesOf, ObjectsOf;
    var objs', names := objs + [o], NamesOf(objs);
    NamesMore(objs, o);
    ObjectsMore(lib, prog, names, o);
    forall j | 0 <= j < |objs'|
      ensures Fits(prog, objs', j)
    {
      assert objs'[..j] == if j < |objs| then objs[..j] else objs;
      if j < |objs| { assert Fits(prog, objs, j); }
    }
  }

  /** The objects listed so far are the first of those of a longer list. */
  lemma ObjectsPrefix(lib: string -> Option<Image>, prog: Image, objs: seq<Object>, names: seq<string>)
    requires Built(lib, prog, objs) && NamesOf(objs) <= names && Found(lib, names)
    ensures objs <= ObjectsOf(lib, prog, names)
  {
    hide Fits;
    var all := ObjectsOf(lib, prog, names);
    forall j | 0 <= j < |objs|
      ensures all[j] == objs[j]
    {
      if j > 0 {
        assert names[j - 1] == NamesOf(objs)[j - 1];
        assert objs[j] == ObjectsOf(lib, prog, NamesOf(objs))[j];
      }
    }
  }

  /** What stops the linker makes the program unlinkable. */
  lemma StopsLinking(lib: string -> Option<Image>, prog: Image, objs: seq<Object>, a: Need)
    requires Built(lib, prog, objs) && a.obj < |objs| && a.pos <= |objs[a.obj].image.needed|
    requires Rest(lib, prog, objs, a) == Libraries(lib, prog) && Stops(lib, prog, objs, a)
    ensures !Linkable(lib, prog)
  {
    hide Built, Mappable, AreasUsed, Closing, Libraries, EntryMapped, EntryOk;
    if Linkable(lib, prog) {
      var names := Libraries(lib, prog).value;
      NamesHere(lib, prog, objs, a);
      ObjectsPrefix(lib, prog, objs, names);
      StillAdmissible(lib, prog, objs, names, a);
      NextAdmissible(lib, prog, objs, names, objs[a.obj].image.needed[a.pos].value);
      assert false;
    }
  }

  lemma NamesHere(lib: string -> Option<Image>, prog: Image, objs: seq<Object>, a: Need)
    requires a.obj < |objs| && a.pos <= |objs[a.obj].image.needed| && Rest(lib, prog, objs, a).Some?
    ensures NamesOf(objs) <= Rest(lib, prog, objs, a).value && |Rest(lib, prog, objs, a).value| < MAX_OBJECTS
    ensures var img := objs[a.obj].image;
            a.pos < |img.needed| && img.needed[a.pos].Some? && Unlisted(objs, img.needed[a.pos].value) ==>
              NamesOf(objs) + [img.needed[a.pos].value] <= Rest(lib, prog, objs, a).value
  {
    hide Closing;
    var needed, names := objs[a.obj].image.needed, NamesOf(objs);
    if a.pos < |needed| && needed[a.pos].Some? && Unlisted(objs, needed[a.pos].value) {
      var n := needed[a.pos].value;
      assert n !in names;
      assert needed[a.pos..][0] == Some(n);
      assert names + [n] <= WithNew(names, needed[a.pos..]);
    }
  }

  lemma StillAdmissible(lib: string -> Option<Image>, prog: Image, objs: seq<Object>, names: seq<string>, a: Need)
    requires Found(lib, names) && objs <= ObjectsOf(lib, prog, names) && a.obj < |objs|
    requires Acceptable(prog, ObjectsOf(lib, prog, names))
    ensures objs[a.obj].image.dynamicOk
    ensures a.pos < |objs[a.obj].image.needed| ==> NameOk(objs[a.obj].image.needed[a.pos])
  {
    hide ObjectsOf, Fits, NameOk;
    assert Admissible(prog, ObjectsOf(lib, prog, names), a.obj);
  }

  lemma NextAdmissible(lib: string -> Option<Image>, prog: Image, objs: seq<Object>, names: seq<string>, n: string)
    requires objs != [] && Found(lib, names) && objs <= ObjectsOf(lib, prog, names) && NamesOf(objs) + [n] <= names
    requires Acceptable(prog, ObjectsOf(lib, prog, names))
    ensures lib(n).Some? && lib(n).value.isDyn && Mappable(lib(n).value, BaseOf(prog, |objs|), AreasUsed(objs))
  {
    hide Mappable, AreasUsed, NameOk;
    var all := ObjectsOf(lib, prog, names);
    assert names[|objs| - 1] == (NamesOf(objs) + [n])[|objs| - 1] == n;
    assert Admissible(prog, all, |objs|);
    assert all[..|objs|] == objs;
  }

  /** A list that is complete is linkable. */
  lemma CompleteLinks(lib: string -> Option<Image>, prog: Image, objs: seq<Object>, disc: seq<Need>)
    requires Built(lib, prog, objs) && Libraries(lib, prog) == Some(NamesOf(objs)) && EntryMapped(prog)
    requires Expanded(objs, disc, Need(|objs|, 0))
    ensures Linkable(lib, prog)
  {
    hide Fits, EntryMapped, Libraries, NameOk;
    forall j | 0 <= j < |objs|
      ensures Admissible(prog, objs, j)
    {
      forall n | n in objs[j].image.needed
        ensures NameOk(n)
      {
        var k :| 0 <= k < |objs[j].image.needed| && objs[j].image.needed[k] == n;
        assert Resolved(objs, disc, Need(j, k));
      }
    }
  }

  // ---- binding ----------------------------------------------------------

  function PartsOf(objs: seq<Object>): (r: seq<Part>)
    ensures |r| == |objs|
  {
    seq(|objs|, i requires 0 <= i < |objs| => Part(objs[i].base, objs[i].image.dyn))
  }

  /** A name is bound to a definition that no other one is nearer than, counting
      DT_NEEDED steps from the program. */
  lemma NearestDefinition(lib: string -> Option<Image>, prog: Image, objs: seq<Object>, disc: seq<Need>, name: string,
                          i: nat, s: nat, j: nat, t: nat, d: nat, e: nat)
    requires Listed(lib, prog, objs, disc) && AllResolved(objs, disc)
    requires DefinesFirst(PartsOf(objs), i, s, name) && Defines(PartsOf(objs), j, t, name)
    requires Distance(NeededGraph(lib, prog), NodeOf(objs, i), d)
    requires Distance(NeededGraph(lib, prog), NodeOf(objs, j), e)
    ensures d <= e
  {
    hide AllResolved, Listed;
    assert i <= j;
    ListedSize(lib, prog, objs, disc);
    NearerFirst(lib, prog, objs, disc, i, j, d, e);
  }

  lemma NearerFirst(lib: string -> Option<Image>, prog: Image, objs: seq<Object>, disc: seq<Need>, i: nat, j: nat,
                    d: nat, e: nat)
    requires Listed(lib, prog, objs, disc) && AllResolved(objs, disc) && i <= j < |objs|
    requires Distance(NeededGraph(lib, prog), NodeOf(objs, i), d)
    requires Distance(NeededGraph(lib, prog), NodeOf(objs, j), e)
    ensures d <= e
  {
    hide Resolved;
    LevelIsDistance(lib, prog, objs, disc, i);
    LevelIsDistance(lib, prog, objs, disc, j);
    LevelMonotone(lib, prog, objs, disc, i, j);
  }

  class Linker {
    const lib: string -> Option<Image>
    const prog: Image
    var objects: seq<Object>
    var areas: seq<Area>
    var maxEnd: nat
    var files: nat              // open backing files

    constructor (lib: string -> Option<Image>, prog: Image)
      ensures this.lib == lib && this.prog == prog && objects == [] && areas == [] && maxEnd == 0 && files == 0
    {
      this.lib, this.prog, objects, areas, maxEnd, files := lib, prog, [], [], 0, 0;
    }

    /** The loop over the program headers. */
    method MapSegments(img: Image, base: nat, owner: nat) returns (ok: bool)
      requires img.headerOk && Top(areas, maxEnd)
      modifies this`areas, this`maxEnd
      ensures Top(areas, maxEnd)
      ensures ok ==> areas == old(areas) + SegmentAreas(img.segments, base, owner) && maxEnd >= old(maxEnd)
      ensures ok <==> Mappable(img, base, |old(areas)|)
      ensures ok ==> forall k :: 0 <= k < |img.segments| ==> SegmentArea(img.segments[k], base, owner).end <= maxEnd
    {
      hide Placeable, Ceil, Floor, Top;
      var segs := img.segments;
      var pages, i := 0, 0;
      while i < |segs|
        invariant 0 <= i <= |segs| && pages == Pages(segs, base, i)
        invariant areas == old(areas) + SegmentAreas(segs, base, owner)[..i] && maxEnd >= old(maxEnd)
        invariant i > 0 ==> |areas| <= MAX_AREAS
        invariant Top(areas, maxEnd)
        invariant forall k :: 0 <= k < i ==> SegmentOk(segs, base, k)
        invariant forall k :: 0 <= k < i ==> SegmentArea(segs[k], base, owner).end <= maxEnd
      {
        var s := segs[i];
        if !Placeable(s, base) {
          assert !SegmentOk(segs, base, i);
          return false;
        }
        pages := pages + Ceil(base + s.vaddr + s.memsz) - Floor(base + s.vaddr);
        assert pages == Pages(segs, base, i + 1);
        if pages > MAX_IMAGE_PAGES || |areas| >= MAX_AREAS {
          assert pages > MAX_IMAGE_PAGES ==> !SegmentOk(segs, base, i);
          return false;
        }
        var a := SegmentArea(s, base, owner);
        TopMore(areas, maxEnd, a);
        areas := areas + [a];
        if a.end > maxEnd {
          maxEnd := a.end;
        }
        i := i + 1;
      }
      return |segs| > 0;
    }

    /** Map one object, which is the next in the list. */
    method RegisterSegments(o: Object) returns (ok: bool)
      requires o.base == BaseOf(prog, |objects|) && AllMapped(prog, objects, areas, maxEnd) && Top(areas, maxEnd)
      modifies this`areas, this`maxEnd
      ensures ok ==> AllMapped(prog, objects + [o], areas, maxEnd) && Top(areas, maxEnd)
      ensures ok ==> areas == old(areas) + SegmentAreas(o.image.segments, o.base, |objects|)
      ensures ok <==> Mappable(o.image, o.base, |old(areas)|)
    {
      hide Mappable, Top;
      if !o.image.headerOk {
        NeedsHeader(Some(o.image), o.base, |areas|);
        return false;
      }
      ok := MapSegments(o.image, o.base, |objects|);
      if ok {
        WhenMappable(o.image, o.base, |old(areas)|);
        MapOneMore(prog, objects, old(areas), old(maxEnd), o, areas, maxEnd);
      }
    }

    /** object_named: the program itself is never found by name. */
    method ObjectNamed(name: string) returns (j: int)
      ensures j == -1 || 1 <= j < |objects|
      ensures if j >= 0 then objects[j].name == name else Unlisted(objects, name)
    {
      j := 1;
      while j < |objects|
        invariant 1 <= j
        invariant forall i :: 1 <= i < j && i < |objects| ==> objects[i].name != name
      {
        if objects[j].name == name {
          return;
        }
        j := j + 1;
      }
      return -1;
    }

    ghost predicate Linking(disc: seq<Need>)
      reads this
    {
      && Listed(lib, prog, objects, disc) && |objects| == files <= MAX_OBJECTS
      && AllMapped(prog, objects, areas, maxEnd) && |areas| == AreasUsed(objects)
      && Top(areas, maxEnd) && Built(lib, prog, objects)
    }

    /** The list will become that of the program. */
    ghost predicate OnCourse(a: Need)
      reads this
    {
      && a.obj < |objects| && a.pos <= |objects[a.obj].image.needed|
      && Rest(lib, prog, objects, a) == Libraries(lib, prog)
    }

    /** Open and map one needed library. */
    method LoadLibrary(name: string, ghost disc: seq<Need>, ghost a: Need) returns (ok: bool)
      requires Linking(disc) && Expanded(objects, disc, a) && Asks(objects, a, name) && NameOk(Some(name))
      requires Unlisted(objects, name) && OnCourse(a)
      modifies this
      ensures ok ==> Linking(disc + [a]) && Expanded(objects, disc + [a], Need(a.obj, a.pos + 1))
      ensures ok ==> OnCourse(Need(a.obj, a.pos + 1))
      ensures ok ==> |objects| == |old(objects)| + 1 && objects[..|old(objects)|] == old(objects)
      ensures !ok ==> objects == old(objects) && OnCourse(a) && Built(lib, prog, objects)
      ensures !ok ==> Listed(lib, prog, objects, disc) && Stops(lib, prog, objects, a)
    {
      hide Listed, Expanded, AllMapped, Mappable, Before, Resolved, Top, NameOk, SegmentAreas, Built, Rest, Libraries;
      if |objects| >= MAX_OBJECTS || files >= MAX_OBJECTS {
        return false;
      }
      var f := lib(name);
      if f == None || !f.value.headerOk || !f.value.isDyn {
        NeedsHeader(f, BaseOf(prog, |objects|), AreasUsed(objects));
        return false;
      }
      ListedSize(lib, prog, objects, disc);
      var dep := Object(name, f.value, BaseOf(prog, |objects|));
      files := files + 1;
      ok := RegisterSegments(dep);
      if ok {
        AppendGood(lib, prog, objects, disc, a, dep);
        BuiltMore(lib, prog, objects, dep);
        RestMore(lib, prog, objects, a, dep);
        assert (objects + [dep])[..|objects|] == objects;
        objects := objects + [dep];
      }
    }

    /** The DT_NEEDED entries of object `oi`, in order. */
    method ExpandObject(oi: nat, ghost disc0: seq<Need>) returns (ok: bool, ghost disc: seq<Need>)
      requires Linking(disc0) && oi < |objects| && Expanded(objects, disc0, Need(oi, 0)) && OnCourse(Need(oi, 0))
      modifies this
      ensures ok ==> Linking(disc) && oi < |objects| && Expanded(objects, disc, Need(oi + 1, 0))
      ensures ok ==> |objects| >= |old(objects)|
      ensures ok ==> if oi + 1 < |objects| then OnCourse(Need(oi + 1, 0))
                     else Libraries(lib, prog) == Some(NamesOf(objects))
      ensures !ok ==> Listed(lib, prog, objects, disc) && Refused(lib, prog, objects) && !Linkable(lib, prog)
    {
      hide Listed, Expanded, AllMapped, Before, Mappable, AreasUsed, Resolved, Top, Built, Rest, Libraries, Linkable;
      hide Stops, NamesOf;
      disc := disc0;
      var o := objects[oi];
      if !o.image.dynamicOk {
        StopsHere(lib, prog, objects, Need(oi, 0));
        StopsLinking(lib, prog, objects, Need(oi, 0));
        return false, disc;
      }
      var ni := 0;
      while ni < |o.image.needed|
        invariant 0 <= ni <= |o.image.needed| && |old(objects)| <= |objects| && oi < |objects| && objects[oi] == o
        invariant Linking(disc) && Expanded(objects, disc, Need(oi, ni)) && OnCourse(Need(oi, ni))
      {
        var n := o.image.needed[ni];
        if !NameOk(n) {
          StopsHere(lib, prog, objects, Need(oi, ni));
          StopsLinking(lib, prog, objects, Need(oi, ni));
          return false, disc;
        }
        var j := ObjectNamed(n.value);
        if j >= 0 {
          FoundGood(lib, prog, objects, disc, Need(oi, ni), n.value, j);
          RestFound(lib, prog, objects, Need(oi, ni), n.value, j);
        } else {
          ghost var before := objects;
          ok := LoadLibrary(n.value, disc, Need(oi, ni));
          if !ok {
            StopsLinking(lib, prog, objects, Need(oi, ni));
            return false, disc;
          }
          disc := disc + [Need(oi, ni)];
          assert before[oi] == objects[..|before|][oi];
        }
        ni := ni + 1;
      }
      ObjectDone(objects, disc, oi);
      RestNext(lib, prog, objects, oi);
      ok := true;
    }

    /** The program itself, and its entry point. */
    method MapProgram(o: Object) returns (ok: bool)
      requires objects == [] && areas == [] && maxEnd == 0 && o.image == prog && o.base == BaseOf(prog, 0)
      modifies this`areas, this`maxEnd
      ensures ok <==> Mappable(prog, BaseOf(prog, 0), 0) && EntryMapped(prog)
      ensures ok ==> AllMapped(prog, [o], areas, maxEnd) && Top(areas, maxEnd) && |areas| == |prog.segments|
    {
      hide AllMapped, Mappable, EntryOk;
      AllMappedEmpty(prog);
      ok := RegisterSegments(o);
      if ok {
        assert [] + [o] == [o] && areas == SegmentAreas(prog.segments, o.base, 0);
        ok := EntryOk(areas, EntryOf(prog));
      }
    }

    /** Map the program, then its libraries breadth first. */
    method Link() returns (ok: bool, ghost disc: seq<Need>)
      requires objects == [] && areas == [] && maxEnd == 0 && files == 0
      modifies this
      ensures ok <==> Linkable(lib, prog)
      ensures ok <==> !Refused(lib, prog, objects)
      ensures objects != [] ==> Listed(lib, prog, objects, disc)
      ensures ok ==> Linking(disc) && Expanded(objects, disc, Need(|objects|, 0))
      ensures ok ==> Libraries(lib, prog) == Some(NamesOf(objects))
    {
      hide Listed, Expanded, AllMapped, Mappable, Before, Asks, Placeable, NodeOf, Built, Rest, Libraries, Linkable;
      hide Stops, NamesOf, EntryMapped, Top;
      disc := [];
      var program := Object("<main>", prog, BaseOf(prog, 0));
      ok := MapProgram(program);
      MustMap(lib, prog);
      if !ok {
        return;
      }
      objects, files := [program], 1;
      disc := [Need(0, 0)];
      Start(lib, prog, program);
      RestStart(lib, prog, program);
      var oi := 0;
      while oi < |objects|
        invariant 0 <= oi <= |objects| && objects != []
        invariant Linking(disc) && Expanded(objects, disc, Need(oi, 0))
        invariant if oi < |objects| then OnCourse(Need(oi, 0)) else Libraries(lib, prog) == Some(NamesOf(objects))
        decreases MAX_OBJECTS - oi
      {
        ok, disc := ExpandObject(oi, disc);
        if !ok {
          return;
        }
        oi := oi + 1;
      }
      ok := true;
      NotRefused(lib, prog, objects, disc);
      CompleteLinks(lib, prog, objects, disc);
    }

    /** elf_load. `entry` is where the program starts and `brk` where the heap may
        start. */
    method Load(mem: Memory) returns (ok: bool, entry: nat, brk: nat, ghost disc: seq<Need>)
      requires objects == [] && areas == [] && maxEnd == 0 && files == 0
      modifies this, mem
      // it succeeds exactly when the breadth-first list stays within the limits, every
      // library in it can be used, and every relocation goes through
      ensures ok <==>
        Linkable(lib, prog) && Relocatable(PartsOf(ObjectsOf(lib, prog, Libraries(lib, prog).value)), mem.granted)
      ensures Linkable(lib, prog) <==> !Refused(lib, prog, objects)
      ensures ok ==> objects == ObjectsOf(lib, prog, Libraries(lib, prog).value)
      // each library once ...
      ensures objects != [] ==> Listed(lib, prog, objects, disc)
      // ... all that are needed ...
      ensures ok ==> objects != [] && AllResolved(objects, disc)
      // ... and nearer ones first
      ensures ok ==> forall j :: 0 <= j < |objects| ==>
        Distance(NeededGraph(lib, prog), NodeOf(objects, j), Level(disc, j))
      ensures ok ==> forall i, j :: 0 <= i <= j < |objects| ==> Level(disc, i) <= Level(disc, j)
      // each at its own base, every segment of it in user space
      ensures ok ==> forall j :: 0 <= j < |objects| ==> InPlace(prog, objects, areas, j)
      // the program starts where its file says, moved along with it, in an area of its own
      ensures ok ==> entry == (prog.entry + objects[0].base) % WORD
      ensures ok ==> exists a :: a in areas && a.owner == 0 && a.start <= entry < a.end
      // everything is mapped, below a page-aligned break
      ensures ok ==> AllMapped(prog, objects, areas, maxEnd) && |objects| <= MAX_OBJECTS
      ensures ok ==> brk % PAGE == 0 && forall a :: a in areas ==> a.end <= brk
      ensures ok ==> exists a :: a in areas && brk < a.end + PAGE
      // and relocated
      ensures ok ==> mem.bytes == Applied(old(mem.bytes), PartsOf(objects), JobsUpTo(PartsOf(objects), |objects|))
      ensures ok ==> Relocated(PartsOf(objects), old(mem.bytes), mem.bytes)
    {
      hide Listed, Expanded, AllMapped, AllResolved, Distance, Level, NodeOf, Linkable, Libraries, Refused, Top;
      hide PartsOf, EntryMapped, EntryOf, Mappable, InPlace, Relocated, Relocatable, Applied, JobsUpTo;
      entry, brk := 0, 0;
      ok, disc := Link();
      if !ok {
        return;
      }
      ListedObjects(lib, prog, objects);
      ok := mem.Relocate(PartsOf(objects));
      Complete(lib, prog, objects, disc);
      entry := EntryOf(prog);
      MustMap(lib, prog);
      InUserSpace(prog, objects, areas, maxEnd);
      EntryInside(prog, objects, areas, maxEnd);
      brk := Ceil(maxEnd) * PAGE;
      BreakAbove(prog, objects, areas, maxEnd);
    }
  }

  lemma StopsHere(lib: string -> Option<Image>, prog: Image, objs: seq<Object>, a: Need)
    requires a.obj < |objs| && (!objs[a.obj].image.dynamicOk ||
                                (a.pos < |objs[a.obj].image.needed| && !NameOk(objs[a.obj].image.needed[a.pos])))
    ensures Stops(lib, prog, objs, a)
  {
    hide Mappable, AreasUsed;
  }

  /** The program itself has to be mapped, with its entry point. */
  lemma MustMap(lib: string -> Option<Image>, prog: Image)
    ensures Linkable(lib, prog) ==> Mappable(prog, BaseOf(prog, 0), 0) && EntryMapped(prog)
  {
    hide Mappable, EntryMapped, Libraries;
    if Linkable(lib, prog) {
      var objs := ObjectsOf(lib, prog, Libraries(lib, prog).value);
      assert Admissible(prog, objs, 0);
      assert objs[..0] == [] && objs[0].image == prog;
    }
  }

  lemma ListedObjects(lib: string -> Option<Image>, prog: Image, objs: seq<Object>)
    requires Built(lib, prog, objs) && Libraries(lib, prog) == Some(NamesOf(objs))
    ensures Found(lib, Libraries(lib, prog).value) && objs == ObjectsOf(lib, prog, Libraries(lib, prog).value)
  {
    hide Fits, Libraries;
  }

  lemma WhenMappable(img: Image, base: nat, used: nat)
    requires Mappable(img, base, used)
    ensures img.segments != [] && Pages(img.segments, base, |img.segments|) <= MAX_IMAGE_PAGES
    ensures forall k :: 0 <= k < |img.segments| ==> Placeable(img.segments[k], base)
  {
    assert SegmentOk(img.segments, base, |img.segments| - 1);
    forall k | 0 <= k < |img.segments|
      ensures Placeable(img.segments[k], base)
    {
      assert SegmentOk(img.segments, base, k);
    }
  }

  lemma NeedsHeader(f: Option<Image>, base: nat, used: nat)
    ensures f.Some? && !f.value.headerOk ==> !Mappable(f.value, base, used)
  {
  }

  lemma AllMappedEmpty(prog: Image)
    ensures AllMapped(prog, [], [], 0)
  {
  }

  lemma Start(lib: string -> Option<Image>, prog: Image, o: Object)
    requires o.image == prog
    ensures Listed(lib, prog, [o], [Need(0, 0)]) && Expanded([o], [Need(0, 0)], Need(0, 0))
    ensures AreasUsed([o]) == |prog.segments|
  {
    assert [o][..0] == [];
  }

  /** Libraries are 32 MiB apart from 256 MiB on, and a program is at 4 MiB or where it
      says. All segments come from the file and lie between the first page and the
      stack. */
  ghost predicate InPlace(prog: Image, objs: seq<Object>, areas: seq<Area>, j: nat)
    requires j < |objs|
  {
    var base, segs := objs[j].base, objs[j].image.segments;
    && base == (if j > 0 then 0x1000_0000 + (j - 1) * 0x200_0000 else if prog.isDyn then 0x40_0000 else 0)
    && forall k :: 0 <= k < |segs| ==>
         && Area(base + segs[k].vaddr, base + segs[k].vaddr + segs[k].memsz, j) in areas && segs[k].inFile
         && 4096 <= base + segs[k].vaddr && base + segs[k].vaddr + segs[k].memsz <= 0x7FFF_FFFF_E000 - 0x1_0000
  }

  lemma InUserSpace(prog: Image, objs: seq<Object>, areas: seq<Area>, maxEnd: nat)
    requires AllMapped(prog, objs, areas, maxEnd)
    ensures forall j :: 0 <= j < |objs| ==> InPlace(prog, objs, areas, j)
  {
    hide AreasOwned, Pages;
    forall j | 0 <= j < |objs|
      ensures InPlace(prog, objs, areas, j)
    {
      assert Mapped(prog, objs, areas, j);
    }
  }

  lemma EntryInside(prog: Image, objs: seq<Object>, areas: seq<Area>, maxEnd: nat)
    requires AllMapped(prog, objs, areas, maxEnd) && objs != [] && objs[0].image == prog && EntryMapped(prog)
    ensures EntryOf(prog) == (prog.entry + objs[0].base) % WORD
    ensures exists a :: a in areas && a.owner == 0 && a.start <= EntryOf(prog) < a.end
  {
    assert Mapped(prog, objs, areas, 0);
    var as0 := SegmentAreas(prog.segments, BaseOf(prog, 0), 0);
    var a :| a in as0 && a.start <= EntryOf(prog) < a.end;
  }

  lemma BreakAbove(prog: Image, objs: seq<Object>, areas: seq<Area>, maxEnd: nat)
    requires AllMapped(prog, objs, areas, maxEnd) && Top(areas, maxEnd) && objs != []
    ensures var brk := Ceil(maxEnd) * PAGE;
            (forall a :: a in areas ==> a.end <= brk) && (exists a :: a in areas && brk < a.end + PAGE)
  {
    assert Mapped(prog, objs, areas, 0);
    assert SegmentArea(objs[0].image.segments[0], objs[0].base, 0) in areas;
  }

  lemma ListedSize(lib: string -> Option<Image>, prog: Image, objs: seq<Object>, disc: seq<Need>)
    requires Listed(lib, prog, objs, disc)
    ensures |objs| >= 1 && |disc| == |objs|
  {
  }

  lemma ObjectDone(objs: seq<Object>, disc: seq<Need>, oi: nat)
    requires oi < |objs| && objs[oi].image.dynamicOk && Expanded(objs, disc, Need(oi, |objs[oi].image.needed|))
    ensures Expanded(objs, disc, Need(oi + 1, 0))
  {
    hide Resolved;
    var here := Need(oi, |objs[oi].image.needed|);
    forall a: Need | a.obj < |objs| && a.pos < |objs[a.obj].image.needed| && Before(a, Need(oi + 1, 0))
      ensures Resolved(objs, disc, a)
    {
      assert Before(a, here);
    }
  }

  /** When every object has been expanded. */
  lemma Complete(lib: string -> Option<Image>, prog: Image, objs: seq<Object>, disc: seq<Need>)
    requires Listed(lib, prog, objs, disc) && Expanded(objs, disc, Need(|objs|, 0))
    ensures AllResolved(objs, disc)
    ensures forall j :: 0 <= j < |objs| ==> Distance(NeededGraph(lib, prog), NodeOf(objs, j), Level(disc, j))
    ensures forall i, j :: 0 <= i <= j < |objs| ==> Level(disc, i) <= Level(disc, j)
  {
    hide Resolved, Distance;
    forall j | 0 <= j < |objs|
      ensures Distance(NeededGraph(lib, prog), NodeOf(objs, j), Level(disc, j))
    {
      LevelIsDistance(lib, prog, objs, disc, j);
    }
    forall i, j | 0 <= i <= j < |objs|
      ensures Level(disc, i) <= Level(disc, j)
    {
      LevelMonotone(lib, prog, objs, disc, i, j);
    }
  }

  /** The libraries in the list are exactly those that can be reached. */
  lemma ListIsClosure(lib: string -> Option<Image>, prog: Image, objs: seq<Object>, disc: seq<Need>, x: Node)
    requires Listed(lib, prog, objs, disc) && AllResolved(objs, disc)
    ensures (exists j :: 0 <= j < |objs| && NodeOf(objs, j) == x) <==>
            (exists p: seq<Node> :: Walk(NeededGraph(lib, prog), p) && p[0] == None && p[|p| - 1] == x)
  {
    if j :| 0 <= j < |objs| && NodeOf(objs, j) == x {
      var p := LevelWalk(lib, prog, objs, disc, j);
    }
    if p: seq<Node> :| Walk(NeededGraph(lib, prog), p) && p[0] == None && p[|p| - 1] == x {
      var j := WalkLevel(lib, prog, objs, disc, p);
    }
  }

  lemma MapOneMore(prog: Image, objs: seq<Object>, areas: seq<Area>, maxEnd: nat, o: Object, areas': seq<Area>,
                   maxEnd': nat)
    requires AllMapped(prog, objs, areas, maxEnd) && maxEnd <= maxEnd' && o.image.segments != []
    requires o.base == BaseOf(prog, |objs|) && areas' == areas + SegmentAreas(o.image.segments, o.base, |objs|)
    requires Pages(o.image.segments, o.base, |o.image.segments|) <= MAX_IMAGE_PAGES
    requires forall k :: 0 <= k < |o.image.segments| ==>
      Placeable(o.image.segments[k], o.base) && SegmentArea(o.image.segments[k], o.base, |objs|).end <= maxEnd'
    ensures AllMapped(prog, objs + [o], areas', maxEnd')
  {
    var objs', segs, more := objs + [o], o.image.segments, SegmentAreas(o.image.segments, o.base, |objs|);
    OwnedMore(objs, areas, maxEnd, o);
    forall a | a in areas'
      ensures a.owner < |objs'| && a.end <= maxEnd'
      ensures exists k :: 0 <= k < |objs'[a.owner].image.segments| &&
                a == SegmentArea(objs'[a.owner].image.segments[k], objs'[a.owner].base, a.owner)
    {
      if a !in areas {
        var k :| 0 <= k < |more| && more[k] == a;
        assert a == SegmentArea(segs[k], o.base, |objs|);
      }
    }
    MappedMore(prog, objs, areas, o, areas');
    forall k | 0 <= k < |segs|
      ensures SegmentArea(segs[k], o.base, |objs|) in areas'
    {
      assert more[k] in areas';
    }
    assert Mapped(prog, objs', areas', |objs|);
  }

  lemma OwnedMore(objs: seq<Object>, areas: seq<Area>, maxEnd: nat, o: Object)
    requires AreasOwned(objs, areas, maxEnd)
    ensures AreasOwned(objs + [o], areas, maxEnd)
  {
    var objs' := objs + [o];
    forall a | a in areas
      ensures a.owner < |objs'| && a.end <= maxEnd
      ensures exists k :: 0 <= k < |objs'[a.owner].image.segments| &&
                a == SegmentArea(objs'[a.owner].image.segments[k], objs'[a.owner].base, a.owner)
    {
      assert objs'[a.owner] == objs[a.owner];
    }
  }

  lemma MappedMore(prog: Image, objs: seq<Object>, areas: seq<Area>, o: Object, areas': seq<Area>)
    requires forall j :: 0 <= j < |objs| ==> Mapped(prog, objs, areas, j)
    requires forall a :: a in areas ==> a in areas'
    ensures forall j :: 0 <= j < |objs| ==> Mapped(prog, objs + [o], areas', j)
  {
    forall j | 0 <= j < |objs|
      ensures Mapped(prog, objs + [o], areas', j)
    {
      assert Mapped(prog, objs, areas, j);
    }
  }

  // ---- a load that overlaps ---------------------------------------------

  /** A program that needs "far" and then "near". The one page of "far" lies a
      whole stride above its base, where "near" goes. */
  const NEEDY: Image := Image(true, true, true, [Segment(0, PAGE, true)], 0, [Some("far"), Some("near")],
                             NO_DYNAMIC)
  const FAR: Image := Image(true, true, true, [Segment(DSO_STRIDE, PAGE, true)], 0, [], NO_DYNAMIC)
  const NEAR: Image := Image(true, true, true, [Segment(0, PAGE, true)], 0, [], NO_DYNAMIC)

  function TwoLibraries(): string -> Option<Image> {
    name => if name == "far" then Some(FAR) else if name == "near" then Some(NEAR) else None
  }

  const TWO_NAMES: seq<string> := ["far", "near"]

  lemma TwoFound()
    ensures Libraries(TwoLibraries(), NEEDY) == Some(TWO_NAMES) && Found(TwoLibraries(), TWO_NAMES)
    ensures var objs := ObjectsOf(TwoLibraries(), NEEDY, TWO_NAMES);
            |objs| == 3 && objs[0].image == NEEDY && objs[1].image == FAR && objs[2].image == NEAR
  {
    var lib := TwoLibraries();
    var a: seq<Option<string>> := NEEDY.needed;
    assert a[1..] == [Some("near")] && a[1..][1..] == [];
    assert WithNew(["far", "near"], a[1..][1..]) == ["far", "near"];
    assert WithNew(["far"], a[1..]) == ["far", "near"] by {
      assert ["far"] + ["near"] == ["far", "near"];
    }
    assert WithNew([], a) == ["far", "near"] by {
      assert [] + ["far"] == ["far"];
    }
    assert Closing(lib, NEEDY, TWO_NAMES, 3) == Some(TWO_NAMES);
    assert NeedsOf(lib, NEEDY, TWO_NAMES, 2) == [] && NeedsOf(lib, NEEDY, TWO_NAMES, 1) == [];
    assert Closing(lib, NEEDY, TWO_NAMES, 2) == Some(TWO_NAMES);
    assert Closing(lib, NEEDY, TWO_NAMES, 1) == Some(TWO_NAMES);
  }

  lemma TwoLinkable()
    ensures Linkable(TwoLibraries(), NEEDY)
  {
    hide Libraries;
    TwoFound();
    var objs := ObjectsOf(TwoLibraries(), NEEDY, TWO_NAMES);
    assert SegmentAreas(NEEDY.segments, PIE_BASE, 0)[0] in SegmentAreas(NEEDY.segments, PIE_BASE, 0);
    forall j | 0 <= j < |objs|
      ensures Admissible(NEEDY, objs, j)
    {
      OneEach(objs[..j]);
      OnePage(objs[j].image.segments[0], BaseOf(NEEDY, j));
    }
  }

  lemma {:induction false} OneEach(objs: seq<Object>)
    requires forall j :: 0 <= j < |objs| ==> |objs[j].image.segments| == 1
    ensures AreasUsed(objs) == |objs|
    decreases |objs|
  {
    if objs != [] { OneEach(objs[..|objs| - 1]); }
  }

  lemma TwoRelocatable(granted: (nat, nat) -> bool)
    ensures Relocatable(PartsOf(ObjectsOf(TwoLibraries(), NEEDY, TWO_NAMES)), granted)
  {
    hide TwoLibraries, ObjectsOf, PartsOf, Libraries, Found, Relocatable;
    TwoFound();
    AllPlain(ObjectsOf(TwoLibraries(), NEEDY, TWO_NAMES), granted);
  }

  lemma AllPlain(objs: seq<Object>, granted: (nat, nat) -> bool)
    requires forall j :: 0 <= j < |objs| ==> objs[j].image.dyn == NO_DYNAMIC
    ensures Relocatable(PartsOf(objs), granted)
  {
    NothingToDo(PartsOf(objs), |objs|);
  }

  lemma {:induction false} NothingToDo(parts: seq<Part>, n: nat)
    requires n <= |parts| && forall j :: 0 <= j < n ==> parts[j].dyn == NO_DYNAMIC
    ensures JobsUpTo(parts, n) == []
  {
    hide Jobs;
    if n > 0 {
      NothingToDo(parts, n - 1);
      TableSize(n - 1, parts[n - 1].dyn.rela);
      TableSize(n - 1, parts[n - 1].dyn.plt);
    }
  }

  /** With the two libraries loaded, their pages are the same. */
  lemma FarMeetsNear(objs: seq<Object>, areas: seq<Area>, maxEnd: nat)
    requires objs == ObjectsOf(TwoLibraries(), NEEDY, TWO_NAMES) && AllMapped(NEEDY, objs, areas, maxEnd)
    ensures exists a, b :: a in areas && b in areas && a.owner != b.owner && !Apart(a, b)
  {
    hide AreasOwned, Placeable, ObjectsOf;
    TwoFound();
    assert Mapped(NEEDY, objs, areas, 1) && Mapped(NEEDY, objs, areas, 2);
    var a, b := SegmentArea(FAR.segments[0], BaseOf(NEEDY, 1), 1), SegmentArea(NEAR.segments[0], BaseOf(NEEDY, 2), 2);
    assert a in areas && b in areas && !Apart(a, b);
  }

  /** The loader accepts it. */
  method OverlappingLoad(mem: Memory) returns (l: Linker, ok: bool)
    modifies mem
    ensures ok && l.lib == TwoLibraries() && l.prog == NEEDY
    ensures exists a, b :: a in l.areas && b in l.areas && a.owner != b.owner && !Apart(a, b)
  {
    hide *;
    l := new Linker(TwoLibraries(), NEEDY);
    ghost var disc;
    var entry, brk;
    TwoFound();
    TwoLinkable();
    TwoRelocatable(mem.granted);
    ok, entry, brk, disc := l.Load(mem);
    FarMeetsNear(l.objects, l.areas, l.maxEnd);
  }
}
