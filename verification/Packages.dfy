/** Installing and removing packages (apps/kpkg.c). A package comes validated
    from the repository or a file; the disk decides which writes and unlinks
    succeed. */
module Packages {
  import opened Numerals
  import opened Options
  import opened PackageDb

  const MAX_DEPTH: nat := 16

  datatype Pkg = Pkg(name: string, depends: seq<string>, files: seq<Entry>)

  predicate Loaded(p: Pkg) {
    p.name != "" && forall i :: 0 <= i < |p.files| ==> WellFormed(p.files[i])
  }

  predicate Visible(p: Pkg) { p.name != "" && p.name[0] != '.' && |Text(p.files)| <= LIST_LIMIT }

  /** How writing one package out goes: an entry that cannot be extracted, a
      database entry that cannot be started, one whose file list cannot be opened
      after the metadata, or a file list cut short. */
  datatype Disk = Fine | ExtractFails(at: nat) | RecordFails | ListFails | Torn(length: nat)

  /** The world outside: the index with the files it names, package files by
      path, the disk, and which unlinks go through (a directory only when
      empty). */
  datatype World = World(
    byName: string -> Option<Pkg>,
    byFile: string -> Option<Pkg>,
    disk: nat -> Disk,
    unlinks: (string, set<string>) -> bool)
  {
    /** `p` is somewhere to be had. */
    ghost predicate Holds(p: Pkg) { (exists n :: byName(n) == Some(p)) || (exists f :: byFile(f) == Some(p)) }

    ghost predicate Valid() { forall p :: Holds(p) ==> Loaded(p) }

    /** No package has a name or a file list that the database walk skips. */
    ghost predicate Tidy() { forall p :: Holds(p) ==> Visible(p) }

    /** Index names are the names in the packages. */
    ghost predicate Faithful() { forall n :: byName(n).Some? ==> byName(n).value.name == n }

    /** No file list is ever cut short. */
    ghost predicate Whole() { forall k :: !disk(k).Torn? }

    /** ... and every record can be written. */
    ghost predicate Reliable() { Whole() && forall k :: !disk(k).RecordFails? && !disk(k).ListFails? }
  }

  /** The database directory: one file list per registered package. */
  type Db = map<string, string>
  type Meta = map<string, seq<string>>

  /** db_walk shows `n` and db_files can read its list. */
  predicate Seen(db: Db, n: string) {
    n in db && n != "" && n[0] != '.' && |db[n]| <= LIST_LIMIT
  }

  ghost predicate Lists(text: string, x: string) {
    exists i :: 0 <= i < |ParseText(text)| && ParseText(text)[i].path == x
  }

  ghost predicate Owns(text: string, x: string) {
    exists i :: 0 <= i < |ParseText(text)| && ParseText(text)[i].path == x && !ParseText(text)[i].isDir
  }

  /** No regular file has two owners ... */
  ghost predicate Single(db: Db) {
    forall a, b, x :: a != b && a in db && b in db && Owns(db[a], x) ==> !Owns(db[b], x)
  }

  /** ... among the packages that the database walk shows. */
  ghost predicate Disjoint(db: Db) {
    forall a, b, x :: a != b && Seen(db, a) && Seen(db, b) && Owns(db[a], x) ==> !Owns(db[b], x)
  }

  ghost predicate AllSeen(db: Db) { forall n :: n in db ==> Seen(db, n) }

  lemma SeenSingle(db: Db)
    requires AllSeen(db)
    ensures Single(db) <==> Disjoint(db)
  {
    hide Owns;
  }

  /** Every dependency of a registered package is registered. */
  ghost predicate Closed(db: Db, meta: Meta) {
    forall n :: n in db ==> n in meta && forall d :: d in meta[n] ==> d in db
  }

  /** Every record is of a package of that name that is to be had: its dependencies, and
      its file list or the start of it. */
  ghost predicate Genuine(w: World, db: Db, meta: Meta) {
    && (forall n :: n in meta ==> exists p :: w.Holds(p) && p.name == n && meta[n] == p.depends)
    && forall n :: n in db ==> exists p :: w.Holds(p) && p.name == n && db[n] <= Text(p.files)
  }

  /** `p` is completely there. */
  ghost predicate Installed(p: Pkg, db: Db, meta: Meta, fs: set<string>) {
    && p.name in db && db[p.name] == Text(p.files) && p.name in meta && meta[p.name] == p.depends
    && forall i :: 0 <= i < |p.files| ==> p.files[i].path in fs
  }

  ghost predicate OtherLists(db: Db, x: string, skip: string) {
    exists n :: n != skip && Seen(db, n) && Lists(db[n], x)
  }

  ghost predicate Conflict(db: Db, p: Pkg) {
    SeenShares(db, p.name, p.files)
  }

  /** A regular file is both in the list and in the package. */
  ghost predicate Clash(text: string, es: seq<Entry>) {
    exists i :: 0 <= i < |es| && !es[i].isDir && Owns(text, es[i].path)
  }

  /** Another registered package has one of the regular files ... */
  ghost predicate Shares(db: Db, name: string, es: seq<Entry>) {
    exists n :: n != name && n in db && Clash(db[n], es)
  }

  /** ... and the database walk does not show it, or does. */
  ghost predicate HiddenShares(db: Db, name: string, es: seq<Entry>) {
    exists n :: n != name && n in db && !Seen(db, n) && Clash(db[n], es)
  }

  ghost predicate SeenShares(db: Db, name: string, es: seq<Entry>) {
    exists n :: n != name && Seen(db, n) && Clash(db[n], es)
  }

  /** Nothing stands in the way of deleting `x`. */
  ghost predicate Removable(w: World, db: Db, keep: seq<Entry>, name: string, x: string) {
    x !in Paths(keep) && !OtherLists(db, x, name) && forall f :: w.unlinks(x, f)
  }

  predicate Works(d: Disk, files: seq<Entry>) {
    d.Fine? || (d.ExtractFails? && d.at >= |files|)
  }

  /** The list reaches the database, perhaps cut short. */
  predicate Records(d: Disk, files: seq<Entry>) { Works(d, files) || d.Torn? }

  function Written(d: Disk, text: string): string {
    if d.Torn? && d.length < |text| then text[..d.length] else text
  }

  /** What is left of `fs` when a list is gone through from its end, deleting what
      `keep` does not have and no other package is seen to list. */
  ghost function Swept(w: World, db: Db, keep: seq<Entry>, name: string, list: seq<DbFile>,
                       fs: set<string>): set<string>
    decreases |list|
  {
    if list == [] then fs
    else
      var x := list[|list| - 1].path;
      Swept(w, db, keep, name, list[..|list| - 1], if Deletable(w, db, keep, name, fs, x) then fs - {x} else fs)
  }

  /** What prune_old leaves of `fs`. */
  ghost function Pruned(w: World, db: Db, p: Pkg, fs: set<string>): set<string> {
    if p.name in db && |db[p.name]| <= LIST_LIMIT
    then Swept(w, db, p.files, p.name, ParseText(db[p.name]), fs) else fs
  }

  /** Pruning would delete something: a path of the old list that can be unlinked
      right away, is not in the new package and in no other. */
  ghost predicate Prunes(w: World, db: Db, p: Pkg, fs: set<string>) {
    && p.name in db && |db[p.name]| <= LIST_LIMIT
    && exists i :: 0 <= i < |ParseText(db[p.name])|
         && Deletable(w, db, p.files, p.name, fs, ParseText(db[p.name])[i].path)
  }

  ghost predicate Deletable(w: World, db: Db, keep: seq<Entry>, name: string, fs: set<string>, x: string) {
    x in fs && x !in Paths(keep) && !OtherLists(db, x, name) && w.unlinks(x, fs)
  }

  /** Everything writing out `p` does, for every way the disk can behave. */
  ghost predicate Wrote(w: World, p: Pkg, d: Disk, db0: Db, meta0: Meta, fs0: set<string>, db1: Db, meta1: Meta,
                        fs1: set<string>) {
    if d.ExtractFails? && d.at < |p.files| then
      db1 == db0 && meta1 == meta0 && fs1 == fs0 + Paths(p.files[..d.at])
    else
      && db1 == (if Records(d, p.files) then db0[p.name := Written(d, Text(p.files))] else db0)
      && meta1 == (if d.RecordFails? then meta0 else meta0[p.name := p.depends])
      && fs1 == Pruned(w, db0, p, fs0 + Paths(p.files))
  }

  /** An install of `p` would go straight to writing it out. */
  ghost predicate Ready(p: Pkg, db: Db, stack: seq<string>, force: bool) {
    p.name !in stack && (p.name in db ==> force) && forall x :: x in p.depends ==> x in db
  }

  /** ... and no check refuses it. */
  ghost predicate Passes(p: Pkg, db: Db, stack: seq<string>, force: bool) {
    Ready(p, db, stack, force) && |stack| < MAX_DEPTH && (force || !Conflict(db, p))
  }

  function Paths(es: seq<Entry>): set<string> {
    set i | 0 <= i < |es| :: es[i].path
  }

  // ---- what a step may do to the file system ----------------------------

  /** The packages a claim is about: all that are registered, or those that the
      database walk shows. */
  predicate Counts(all: bool, db: Db, n: string) { n in db && (all || Seen(db, n)) }

  /** Listed files survive, and newly listed ones are there. */
  ghost predicate Kept(all: bool, db0: Db, fs0: set<string>, db1: Db, fs1: set<string>) {
    forall n, x :: Counts(all, db1, n) && Lists(db1[n], x) && (x in fs0 || n !in db0 || db0[n] != db1[n]) ==> x in fs1
  }

  /** Every path that a registered package lists exists. */
  ghost predicate Present(all: bool, db: Db, fs: set<string>) {
    forall n, x :: Counts(all, db, n) && Lists(db[n], x) ==> x in fs
  }

  lemma KeptTrans(all: bool, db0: Db, fs0: set<string>, db1: Db, fs1: set<string>, db2: Db, fs2: set<string>)
    requires Kept(all, db0, fs0, db1, fs1) && Kept(all, db1, fs1, db2, fs2)
    ensures Kept(all, db0, fs0, db2, fs2)
  {
    hide Lists;
    forall n, x | Counts(all, db2, n) && Lists(db2[n], x) && (x in fs0 || n !in db0 || db0[n] != db2[n])
      ensures x in fs2
    {
      if n in db1 && db1[n] == db2[n] {
        assert Counts(all, db1, n) && Lists(db1[n], x);
      }
    }
  }

  // ---- exactly when listed files are lost -------------------------------

  lemma {:induction false} SweptFacts(w: World, db: Db, keep: seq<Entry>, name: string, list: seq<DbFile>,
                                      fs: set<string>)
    ensures var after := Swept(w, db, keep, name, list, fs);
            && after <= fs
            && (forall x :: x in fs && x !in after ==>
                  x !in Paths(keep) && !OtherLists(db, x, name) && exists i :: 0 <= i < |list| && list[i].path == x)
            && (after == fs <==> !exists i :: 0 <= i < |list| && Deletable(w, db, keep, name, fs, list[i].path))
    decreases |list|
  {
    hide Paths, OtherLists;
    if list != [] {
      var x, rest := list[|list| - 1].path, list[..|list| - 1];
      SweptFacts(w, db, keep, name, rest, if Deletable(w, db, keep, name, fs, x) then fs - {x} else fs);
      assert forall i :: 0 <= i < |rest| ==> rest[i] == list[i];
    }
  }

  /** Whether the path can be unlinked does not depend on what else exists, as for
      every regular file. */
  ghost predicate Steady(w: World, x: string) { forall f, g :: w.unlinks(x, f) == w.unlinks(x, g) }

  /** Then it is deleted exactly when it is deletable at the start. */
  lemma {:induction false} SweptSteady(w: World, db: Db, keep: seq<Entry>, name: string, list: seq<DbFile>,
                                       fs: set<string>, x: string)
    requires Steady(w, x)
    ensures x in fs && x !in Swept(w, db, keep, name, list, fs) <==>
      Deletable(w, db, keep, name, fs, x) && exists i :: 0 <= i < |list| && list[i].path == x
    decreases |list|
  {
    hide Paths, OtherLists;
    if list != [] {
      var y, rest := list[|list| - 1].path, list[..|list| - 1];
      var fs' := if Deletable(w, db, keep, name, fs, y) then fs - {y} else fs;
      SweptSteady(w, db, keep, name, rest, fs', x);
      SweptFacts(w, db, keep, name, rest, fs');
      assert forall i :: 0 <= i < |rest| ==> rest[i] == list[i];
      assert w.unlinks(x, fs) == w.unlinks(x, fs');
    }
  }

  /** A deleted path is in the list of another package that is not seen. */
  ghost predicate HiddenLoss(db: Db, name: string, fs: set<string>, after: set<string>) {
    exists n, x :: n != name && n in db && !Seen(db, n) && Lists(db[n], x) && x in fs && x !in after
  }

  /** Removing a package loses a file of another one exactly when the other one is
      hidden and the file is deleted. */
  lemma RemoveExact(w: World, db: Db, name: string, fs: set<string>)
    requires name in db
    ensures var after := Swept(w, db, [], name, ParseText(db[name]), fs);
            && Kept(false, db, fs, db - {name}, after)
            && (Kept(true, db, fs, db - {name}, after) <==> !HiddenLoss(db, name, fs, after))
  {
    hide Lists, OtherLists, Paths, ParseText;
    var after, db' := Swept(w, db, [], name, ParseText(db[name]), fs), db - {name};
    SweptFacts(w, db, [], name, ParseText(db[name]), fs);
    forall n, x | n in db' && Lists(db'[n], x) && x in fs && x !in after
      ensures n != name && n in db && db'[n] == db[n] && !Seen(db, n) && !Seen(db', n)
    {
      if Seen(db, n) { OneLists(db, x, name, n); }
    }
    if HiddenLoss(db, name, fs, after) {
      var n, x :| n != name && n in db && !Seen(db, n) && Lists(db[n], x) && x in fs && x !in after;
      assert Counts(true, db', n) && Lists(db'[n], x);
    }
  }

  /** What a caller can look for beforehand, for a removal and for a prune after
      `fs` has grown to `full`. */
  lemma HiddenLossSteady(w: World, db: Db, keep: seq<Entry>, name: string, fs: set<string>, full: set<string>)
    requires name in db && fs <= full && forall x :: Lists(db[name], x) ==> Steady(w, x)
    ensures HiddenLoss(db, name, fs, Swept(w, db, keep, name, ParseText(db[name]), full)) <==>
      exists n, x :: n != name && n in db && !Seen(db, n) && Lists(db[n], x) && Lists(db[name], x) && x in fs
                     && Deletable(w, db, keep, name, full, x)
  {
    hide OtherLists, Paths, ParseText, Deletable, Steady;
    var list := ParseText(db[name]);
    SweptFacts(w, db, keep, name, list, full);
    forall x | Lists(db[name], x)
      ensures x in full && x !in Swept(w, db, keep, name, list, full) <==> Deletable(w, db, keep, name, full, x)
    {
      SweptSteady(w, db, keep, name, list, full, x);
    }
  }

  lemma PrunedFacts(w: World, db: Db, p: Pkg, fs: set<string>)
    ensures Pruned(w, db, p, fs) <= fs && (Pruned(w, db, p, fs) == fs <==> !Prunes(w, db, p, fs))
    ensures forall x :: x in fs && x !in Pruned(w, db, p, fs) ==>
      x !in Paths(p.files) && !OtherLists(db, x, p.name) && p.name in db && Lists(db[p.name], x)
  {
    hide OtherLists, Paths, ParseText, Swept, Deletable;
    if p.name in db && |db[p.name]| <= LIST_LIMIT {
      SweptFacts(w, db, p.files, p.name, ParseText(db[p.name]), fs);
    }
  }

  /** Writing out a package loses a listed file: one of a hidden package is pruned;
      or the record is not written after a prune; or the list is cut short inside a
      path, and what is left of the path does not exist. */
  ghost predicate Loses(all: bool, w: World, p: Pkg, d: Disk, db: Db, fs: set<string>) {
    var full := fs + Paths(p.files);
    var after := Pruned(w, db, p, full);
    !(d.ExtractFails? && d.at < |p.files|) &&
    ( || (all && HiddenLoss(db, p.name, fs, after))
      || (!Records(d, p.files) && Counts(all, db, p.name) && Prunes(w, db, p, full))
      || (d.Torn? && d.length < |Text(p.files)| && CutLost(all, p, Text(p.files)[..d.length], d.length, db, fs, after)))
  }

  ghost predicate CutLost(all: bool, p: Pkg, text: string, n: nat, db: Db, fs: set<string>, after: set<string>) {
    && Counts(all, db[p.name := text], p.name)
    && exists x :: x in Paths(TornAt(p.files, n).cut) && x !in after && (x in fs || p.name !in db || db[p.name] != text)
  }

  /** What a freshly written list says. */
  lemma TextLists(es: seq<Entry>, x: string)
    requires forall i :: 0 <= i < |es| ==> WellFormed(es[i])
    ensures Lists(Text(es), x) <==> x in Paths(es)
    ensures Owns(Text(es), x) <==> exists i :: 0 <= i < |es| && es[i].path == x && !es[i].isDir
  {
    hide WellFormed, Fits, ParseText, Text;
    AllFit(es);
    TextThen(es, "");
    NothingToParse();
    assert Text(es) + "" == Text(es) && AllStored(es) + [] == AllStored(es);
  }

  lemma RegisterDisjoint(db: Db, p: Pkg)
    requires Loaded(p) && Disjoint(db) && !Conflict(db, p)
    ensures Disjoint(db[p.name := Text(p.files)])
  {
    hide Owns, Text, WellFormed;
    var db' := db[p.name := Text(p.files)];
    forall a, b, x | a != b && Seen(db', a) && Seen(db', b) && Owns(db'[a], x)
      ensures !Owns(db'[b], x)
    {
      TextLists(p.files, x);
      assert a != p.name ==> Seen(db, a);
      assert b != p.name ==> Seen(db, b);
    }
  }

  // ---- exactly when ownership stays single ------------------------------

  ghost predicate OwnsExactly(text: string, es: seq<Entry>) {
    forall x :: Owns(text, x) <==> exists i :: 0 <= i < |es| && es[i].path == x && !es[i].isDir
  }

  /** A record listing `es` leaves ownership single exactly when no other package
      has one of its files. */
  lemma RecordSingle(db: Db, name: string, text: string, es: seq<Entry>)
    requires Single(db) && OwnsExactly(text, es)
    ensures Single(db[name := text]) <==> !Shares(db, name, es)
  {
    hide Owns;
    var db' := db[name := text];
    if Shares(db, name, es) {
      var n :| n != name && n in db && Clash(db[n], es);
      var i :| 0 <= i < |es| && !es[i].isDir && Owns(db[n], es[i].path);
      assert Owns(db'[n], es[i].path) && Owns(db'[name], es[i].path);
    } else {
      forall a, b, x | a != b && a in db' && b in db' && Owns(db'[a], x)
        ensures !Owns(db'[b], x)
      {
        var n := if a == name then b else a;
        assert a == name || b == name ==> !Clash(db[n], es);
      }
    }
  }

  /** The same for what the database walk shows. */
  lemma RecordDisjoint(db: Db, name: string, text: string, es: seq<Entry>)
    requires Disjoint(db) && OwnsExactly(text, es)
    ensures var db' := db[name := text];
            Disjoint(db') <==> !(Seen(db', name) && SeenShares(db, name, es))
  {
    hide Owns;
    var db' := db[name := text];
    if Seen(db', name) && SeenShares(db, name, es) {
      var n :| n != name && Seen(db, n) && Clash(db[n], es);
      var i :| 0 <= i < |es| && !es[i].isDir && Owns(db[n], es[i].path);
      assert Seen(db', n) && Owns(db'[n], es[i].path) && Owns(db'[name], es[i].path);
    } else {
      forall a, b, x | a != b && Seen(db', a) && Seen(db', b) && Owns(db'[a], x)
        ensures !Owns(db'[b], x)
      {
        var n := if a == name then b else a;
        assert n != name ==> Seen(db, n);
        assert a == name || b == name ==> !Clash(db[n], es);
      }
    }
  }

  lemma SharesSplit(db: Db, name: string, es: seq<Entry>)
    ensures Shares(db, name, es) <==> SeenShares(db, name, es) || HiddenShares(db, name, es)
  {
  }

  lemma TextOwns(es: seq<Entry>)
    requires forall i :: 0 <= i < |es| ==> WellFormed(es[i])
    ensures OwnsExactly(Text(es), es)
  {
    hide WellFormed, Text, Owns;
    forall x
      ensures Owns(Text(es), x) <==> exists i :: 0 <= i < |es| && es[i].path == x && !es[i].isDir
    {
      TextLists(es, x);
    }
  }

  /** Registering a package that passed the conflict check: ownership stays single
      if and only if it takes no file of a package the check cannot see. */
  lemma RegisterSingle(db: Db, p: Pkg)
    requires Loaded(p) && Single(db) && !Conflict(db, p)
    ensures Single(db[p.name := Text(p.files)]) <==> !HiddenShares(db, p.name, p.files)
  {
    hide WellFormed, Text, Single, OwnsExactly, Shares, SeenShares, HiddenShares;
    TextOwns(p.files);
    RecordSingle(db, p.name, Text(p.files), p.files);
    SharesSplit(db, p.name, p.files);
  }

  lemma TornOwns(es: seq<Entry>, n: nat)
    requires (forall i :: 0 <= i < |es| ==> WellFormed(es[i])) && n <= |Text(es)|
    ensures OwnsExactly(Text(es)[..n], TornEntries(es, n))
  {
    hide WellFormed, Fits, Text, ParseText, TornEntries;
    AllFit(es);
    TornBack(es, n);
  }

  lemma ClashOfConcat(text: string, a: seq<Entry>, b: seq<Entry>)
    ensures Clash(text, a + b) <==> Clash(text, a) || Clash(text, b)
  {
    hide Owns;
    if i :| 0 <= i < |a| && !a[i].isDir && Owns(text, a[i].path) {
      assert (a + b)[i] == a[i];
    }
    if i :| 0 <= i < |b| && !b[i].isDir && Owns(text, b[i].path) {
      assert (a + b)[|a| + i] == b[i];
    }
  }

  /** The whole entries of a cut list come from the package. */
  lemma CutShares(db: Db, p: Pkg, n: nat)
    requires !Conflict(db, p)
    ensures SeenShares(db, p.name, TornEntries(p.files, n)) <==> SeenShares(db, p.name, TornAt(p.files, n).cut)
  {
    hide Clash, TornAt;
    var t := TornAt(p.files, n);
    assert p.files == p.files[..t.whole] + p.files[t.whole..];
    forall m | m != p.name && Seen(db, m)
      ensures Clash(db[m], TornEntries(p.files, n)) <==> Clash(db[m], t.cut)
    {
      ClashOfConcat(db[m], p.files[..t.whole], p.files[t.whole..]);
      ClashOfConcat(db[m], p.files[..t.whole], t.cut);
    }
  }

  /** A list cut short goes wrong only through the path on its last line. */
  lemma TornRecord(db: Db, p: Pkg, n: nat)
    requires Loaded(p) && !Conflict(db, p) && n <= |Text(p.files)|
    ensures var db', cut := db[p.name := Text(p.files)[..n]], TornAt(p.files, n).cut;
            && (Disjoint(db) ==> (Disjoint(db') <==> !(Seen(db', p.name) && SeenShares(db, p.name, cut))))
            && (Single(db) ==> (Single(db') <==>
                 !SeenShares(db, p.name, cut) && !HiddenShares(db, p.name, TornEntries(p.files, n))))
  {
    hide WellFormed, Text, Single, Disjoint, OwnsExactly, Shares, SeenShares, HiddenShares;
    hide TornEntries, TornAt, Seen, Conflict;
    var text, es := Text(p.files)[..n], TornEntries(p.files, n);
    TornOwns(p.files, n);
    CutShares(db, p, n);
    SharesSplit(db, p.name, es);
    if Single(db) {
      RecordSingle(db, p.name, text, es);
    }
    if Disjoint(db) {
      RecordDisjoint(db, p.name, text, es);
    }
  }

  /** A package that passed the conflict check leaves ownership single: what the
      database then lists of it is not in a package the check cannot see, and a
      path that was cut is in no other package at all. */
  ghost predicate StaysSingle(d: Disk, db: Db, p: Pkg) {
    Records(d, p.files) ==>
      if d.Torn? && d.length < |Text(p.files)| then
        && !SeenShares(db, p.name, TornAt(p.files, d.length).cut)
        && !HiddenShares(db, p.name, TornEntries(p.files, d.length))
      else !HiddenShares(db, p.name, p.files)
  }

  lemma WroteSingle(w: World, p: Pkg, d: Disk, db: Db, meta: Meta, fs: set<string>, db': Db, meta': Meta,
                    fs': set<string>)
    requires Wrote(w, p, d, db, meta, fs, db', meta', fs') && Loaded(p) && !Conflict(db, p) && Single(db)
    ensures Single(db') <==> StaysSingle(d, db, p)
  {
    hide WellFormed, Text, Single, SeenShares, HiddenShares, TornAt, TornEntries, Paths;
    hide Prunes, OtherLists, Lists, Conflict;
    if d.Torn? && d.length < |Text(p.files)| {
      TornRecord(db, p, d.length);
    } else {
      RegisterSingle(db, p);
    }
  }

  /** What any part of an install does: nothing is unregistered, the packages
      being installed further up are left alone, and the invariants hold on. */
  ghost predicate Step(w: World, force: bool, busy: seq<string>,
                       db0: Db, meta0: Meta, fs0: set<string>, lost0: bool,
                       db1: Db, meta1: Meta, fs1: set<string>, lost1: bool)
  {
    && db0.Keys <= db1.Keys
    && (!force ==> forall n :: n in db0 ==> db1[n] == db0[n])
    && (forall n :: n in busy && n in db1 ==> n in db0)
    && (w.Faithful() && Closed(db0, meta0) ==> Closed(db1, meta1))
    && (Genuine(w, db0, meta0) ==> Genuine(w, db1, meta1))
    && (w.Whole() && !force && Disjoint(db0) ==> Disjoint(db1))
    && (w.Tidy() && AllSeen(db0) ==> AllSeen(db1))
    && (w.Whole() && (!force || w.Reliable()) ==> Kept(false, db0, fs0, db1, fs1))
    && (lost0 ==> lost1) && (!lost1 ==> Kept(true, db0, fs0, db1, fs1))
    && (w.Whole() && (!force || w.Reliable()) && w.Tidy() && AllSeen(db0) && lost1 ==> lost0)
  }

  lemma StepTrans(w: World, force: bool, busy: seq<string>, db0: Db, meta0: Meta, fs0: set<string>, lost0: bool,
                  db1: Db, meta1: Meta, fs1: set<string>, lost1: bool,
                  db2: Db, meta2: Meta, fs2: set<string>, lost2: bool)
    requires Step(w, force, busy, db0, meta0, fs0, lost0, db1, meta1, fs1, lost1)
    requires Step(w, force, busy, db1, meta1, fs1, lost1, db2, meta2, fs2, lost2)
    ensures Step(w, force, busy, db0, meta0, fs0, lost0, db2, meta2, fs2, lost2)
  {
    hide Closed, Genuine, Disjoint, Kept, AllSeen;
    if w.Whole() && (!force || w.Reliable()) {
      KeptTrans(false, db0, fs0, db1, fs1, db2, fs2);
    }
    if !lost2 {
      KeptTrans(true, db0, fs0, db1, fs1, db2, fs2);
    }
  }

  lemma StepKeys(w: World, force: bool, busy: seq<string>, db0: Db, meta0: Meta, fs0: set<string>, lost0: bool,
                 db1: Db, meta1: Meta, fs1: set<string>, lost1: bool)
    requires Step(w, force, busy, db0, meta0, fs0, lost0, db1, meta1, fs1, lost1)
    ensures forall n :: n in db0 ==> n in db1
  {
    hide Closed, Genuine, Disjoint, Kept, AllSeen;
    assert db0.Keys <= db1.Keys;
  }

  /** A package being installed is not registered by its own dependencies. */
  lemma StepBusy(w: World, force: bool, busy: seq<string>, name: string,
                 db0: Db, meta0: Meta, fs0: set<string>, lost0: bool,
                 db1: Db, meta1: Meta, fs1: set<string>, lost1: bool)
    requires Step(w, force, busy + [name], db0, meta0, fs0, lost0, db1, meta1, fs1, lost1)
    ensures Step(w, force, busy, db0, meta0, fs0, lost0, db1, meta1, fs1, lost1)
    ensures name in db1 <==> name in db0
  {
    hide Closed, Genuine, Disjoint, Kept, AllSeen;
    assert (busy + [name])[|busy|] == name;
  }

  /** More files on disk and nothing else. */
  lemma StepGrow(w: World, force: bool, busy: seq<string>, db: Db, meta: Meta, fs: set<string>, fs': set<string>,
                 lost: bool)
    requires fs <= fs'
    ensures Step(w, force, busy, db, meta, fs, lost, db, meta, fs', lost)
  {
    hide Lists, Owns;
  }

  lemma NothingChanged(db: Db, fs: set<string>)
    ensures forall all :: Kept(all, db, fs, db, fs)
  {
  }

  lemma NoneHidden(db: Db, name: string, fs: set<string>, after: set<string>)
    ensures AllSeen(db) ==> !HiddenLoss(db, name, fs, after)
  {
  }

  lemma RemoveKeeps(db: Db, name: string)
    requires name in db
    ensures Disjoint(db) ==> Disjoint(db - {name})
    ensures AllSeen(db) ==> AllSeen(db - {name})
  {
    hide Lists, Owns;
    var db' := db - {name};
    forall n | Seen(db', n)
      ensures n != name && Seen(db, n) && db'[n] == db[n]
    {
    }
  }

  lemma NothingRegistered(meta: Meta, fs: set<string>)
    ensures Closed(map[], meta) && Disjoint(map[]) && AllSeen(map[])
    ensures forall all :: Kept(all, map[], {}, map[], fs)
  {
  }

  lemma NothingGenuine(w: World)
    ensures Genuine(w, map[], map[])
  {
  }

  lemma GenuineWithout(w: World, db: Db, meta: Meta, name: string)
    requires Genuine(w, db, meta)
    ensures Genuine(w, db - {name}, meta - {name})
  {
    hide World.Holds, Text;
  }

  lemma {:induction false} LongText(es: seq<Entry>)
    requires forall i :: 0 <= i < |es| ==> WellFormed(es[i]) && !es[i].isDir
    ensures |Text(es)| >= 64 * |es|
    decreases |es|
  {
    hide SafePath, OctStr, Decimal, HexStr, Joined, Word;
    if es != [] {
      LongText(es[..|es| - 1]);
      JoinedLong(Words(es[|es| - 1]), 4);
    }
  }

  lemma {:induction false} JoinedLong(ws: seq<string>, i: nat)
    requires i < |ws|
    ensures |Joined(ws)| >= |ws[i]|
  {
    if i > 0 {
      JoinedLong(ws[1..], i - 1);
    }
  }

  datatype Command =
    | Install(name: string, force: bool)
    | InstallFile(path: string, force: bool)
    | Remove(name: string)
  {
    predicate Forced() { !Remove? && force }
  }

  predicate Unforced(cmds: seq<Command>) { forall i :: 0 <= i < |cmds| ==> !cmds[i].Forced() }

  // ---- when an install must succeed -------------------------------------

  /** Packages that can be installed together, ranked so that dependencies go
      down. */
  datatype Plan = Plan(names: set<string>, rank: string -> nat)

  ghost predicate Feasible(w: World, plan: Plan) {
    && (forall k :: w.disk(k).Fine?)
    && forall n :: n in plan.names ==>
         && w.byName(n).Some? && w.byName(n).value.name == n
         && forall d :: d in w.byName(n).value.depends ==> d in plan.names && plan.rank(d) < plan.rank(n)
  }

  /** No package of the plan takes a file of another, or of a registered one. */
  ghost predicate Compatible(w: World, plan: Plan, db: Db)
    requires Feasible(w, plan)
  {
    && (forall n, m :: n in plan.names && m != n && Seen(db, m) ==> !Clash(db[m], w.byName(n).value.files))
    && (forall n, m :: n in plan.names && m in plan.names && m != n ==>
          !Clash(Text(w.byName(m).value.files), w.byName(n).value.files))
  }

  ghost predicate Installable(w: World, plan: Plan, db: Db, stack: seq<string>, n: string) {
    && Feasible(w, plan) && Compatible(w, plan, db) && n in plan.names && |stack| + plan.rank(n) < MAX_DEPTH
    && forall x :: x in stack && x in plan.names ==> plan.rank(x) > plan.rank(n)
  }

  lemma DependInstallable(w: World, plan: Plan, db0: Db, db: Db, stack: seq<string>, n: string, d: string)
    requires Installable(w, plan, db0, stack, n) && Compatible(w, plan, db) && d in w.byName(n).value.depends
    ensures Installable(w, plan, db, stack + [n], d)
  {
    hide Compatible;
  }

  ghost predicate CanInstall(w: World, plan: Plan, db: Db, stack: seq<string>, p: Pkg) {
    w.byName(p.name) == Some(p) && Installable(w, plan, db, stack, p.name)
  }

  lemma StartGoing(w: World, plan: Plan, db: Db, stack: seq<string>, p: Pkg)
    ensures CanInstall(w, plan, db, stack, p) ==> Going(w, plan, db, db, stack + [p.name], p)
    ensures CanInstall(w, plan, db, stack, p) ==> |stack| < MAX_DEPTH && Feasible(w, plan) && Compatible(w, plan, db)
    ensures CanInstall(w, plan, db, stack, p) ==> p.name !in stack
  {
    assert (stack + [p.name])[..|stack|] == stack;
  }

  lemma CanWrite(w: World, plan: Plan, db0: Db, db: Db, stack: seq<string>, p: Pkg, k: nat)
    requires Going(w, plan, db0, db, stack + [p.name], p)
    ensures Feasible(w, plan) && Compatible(w, plan, db[p.name := Text(p.files)])
    ensures !Conflict(db, p) && Works(w.disk(k), p.files)
  {
    hide Compatible;
    assert (stack + [p.name])[..|stack|] == stack;
    StillCompatible(w, plan, db, p.name);
  }

  /** `p`, on top of the stack, is having its dependencies installed. */
  ghost predicate Going(w: World, plan: Plan, db0: Db, db: Db, stack: seq<string>, p: Pkg) {
    && stack != [] && w.byName(p.name) == Some(p) && Installable(w, plan, db0, stack[..|stack| - 1], p.name)
    && Compatible(w, plan, db)
  }

  lemma GoingOn(w: World, plan: Plan, db0: Db, db: Db, stack: seq<string>, p: Pkg, d: string)
    requires Going(w, plan, db0, db, stack, p) && stack[|stack| - 1] == p.name && d in p.depends
    ensures Installable(w, plan, db, stack, d)
    ensures forall db' :: Compatible(w, plan, db') ==> Going(w, plan, db0, db', stack, p)
  {
    DependInstallable(w, plan, db0, db, stack[..|stack| - 1], p.name, d);
    assert stack == stack[..|stack| - 1] + [p.name];
  }

  lemma StillCompatible(w: World, plan: Plan, db: Db, n: string)
    requires Feasible(w, plan) && Compatible(w, plan, db) && n in plan.names
    ensures Compatible(w, plan, db[n := Text(w.byName(n).value.files)])
    ensures !Conflict(db, w.byName(n).value)
  {
    hide Clash, Text;
    var db' := db[n := Text(w.byName(n).value.files)];
    forall k, m | k in plan.names && m != k && Seen(db', m)
      ensures !Clash(db'[m], w.byName(k).value.files)
    {
      if m != n {
        assert Seen(db, m);
      }
    }
  }

  class Manager {
    const world: World
    var db: Db
    var meta: Meta          // the depends line of each record
    var fs: set<string>     // paths that exist
    var stack: seq<string>
    var clock: nat
    ghost var lost: bool    // some command so far has lost a listed file

    constructor (world: World)
      ensures this.world == world && db == map[] && meta == map[] && fs == {} && stack == [] && clock == 0 && !lost
    {
      this.world, db, meta, fs, stack, clock, lost := world, map[], map[], {}, [], 0, false;
    }

    /** Is the path in another package's list? */
    method OtherOwner(path: string, skip: string) returns (found: bool)
      ensures found <==> OtherLists(db, path, skip)
    {
      hide ParseText;
      var todo := db.Keys;
      found := false;
      while todo != {} && !found
        invariant todo <= db.Keys
        invariant found ==> OtherLists(db, path, skip)
        invariant !found ==> forall n :: n in db && n !in todo && n != skip && Seen(db, n) ==> !Lists(db[n], path)
        decreases |todo|
      {
        var n :| n in todo;
        todo := todo - {n};
        if n != "" && n[0] != '.' && n != skip {
          var list := ReadList(db[n]);
          if list.Some? {
            found := HasPath(list.value, path);
          }
        }
      }
    }

    static method HasPath(list: seq<DbFile>, path: string) returns (b: bool)
      ensures b <==> exists i :: 0 <= i < |list| && list[i].path == path
    {
      var i := 0;
      while i < |list|
        invariant 0 <= i <= |list| && forall j :: 0 <= j < i ==> list[j].path != path
      {
        if list[i].path == path {
          return true;
        }
        i := i + 1;
      }
      return false;
    }

    static method HasEntry(es: seq<Entry>, path: string) returns (b: bool)
      ensures b <==> path in Paths(es)
    {
      var i := 0;
      while i < |es|
        invariant 0 <= i <= |es| && forall j :: 0 <= j < i ==> es[j].path != path
      {
        if es[i].path == path {
          return true;
        }
        i := i + 1;
      }
      return false;
    }

    /** Regular files in both lists. */
    static method Overlap(list: seq<DbFile>, es: seq<Entry>) returns (n: nat)
      ensures n > 0 <==>
        exists i, j :: 0 <= i < |list| && 0 <= j < |es| && !list[i].isDir && !es[j].isDir && list[i].path == es[j].path
    {
      n := 0;
      var i := 0;
      while i < |list|
        invariant 0 <= i <= |list|
        invariant n > 0 <==>
          exists k, j :: 0 <= k < i && 0 <= j < |es| && !list[k].isDir && !es[j].isDir && list[k].path == es[j].path
      {
        if !list[i].isDir {
          var m := CountPath(es, list[i].path);
          n := n + m;
        }
        i := i + 1;
      }
    }

    static method CountPath(es: seq<Entry>, path: string) returns (n: nat)
      ensures n > 0 <==> exists j :: 0 <= j < |es| && !es[j].isDir && es[j].path == path
    {
      n := 0;
      var j := 0;
      while j < |es|
        invariant 0 <= j <= |es| && (n > 0 <==> exists k :: 0 <= k < j && !es[k].isDir && es[k].path == path)
      {
        if !es[j].isDir && es[j].path == path {
          n := n + 1;
        }
        j := j + 1;
      }
    }

    method CountConflicts(p: Pkg) returns (count: nat)
      ensures count > 0 <==> Conflict(db, p)
    {
      hide ParseText;
      var todo := db.Keys;
      count := 0;
      while todo != {}
        invariant todo <= db.Keys
        invariant count > 0 <==> exists n :: n in db.Keys - todo && n != p.name && Seen(db, n) && Clash(db[n], p.files)
        decreases |todo|
      {
        var n :| n in todo;
        todo := todo - {n};
        if n != "" && n[0] != '.' && n != p.name {
          var list := ReadList(db[n]);
          if list.Some? {
            var m := Overlap(list.value, p.files);
            count := count + m;
          }
        }
      }
    }

    method Extract(files: seq<Entry>, d: Disk) returns (ok: bool)
      modifies this`fs
      ensures ok <==> !(d.ExtractFails? && d.at < |files|)
      ensures fs == old(fs) + Paths(if ok then files else files[..d.at])
    {
      var i := 0;
      while i < |files|
        invariant 0 <= i <= |files| && fs == old(fs) + Paths(files[..i]) && (d.ExtractFails? ==> i <= d.at)
      {
        if d.ExtractFails? && d.at == i {
          return false;
        }
        assert Paths(files[..i + 1]) == Paths(files[..i]) + {files[i].path} by {
          assert forall k :: 0 <= k < i ==> files[..i + 1][k] == files[..i][k];
          assert files[..i + 1][i] == files[i];
        }
        fs := fs + {files[i].path};
        i := i + 1;
      }
      assert files[..i] == files;
      return true;
    }

    method Unlink(path: string) returns (ok: bool)
      modifies this`fs
      ensures ok <==> path in old(fs) && world.unlinks(path, old(fs))
      ensures fs == if ok then old(fs) - {path} else old(fs)
    {
      ok := path in fs && world.unlinks(path, fs);
      if ok {
        fs := fs - {path};
      }
    }

    /** Delete from the end of a list what `keep` does not have and no other
        package lists. */
    method UnlinkList(list: seq<DbFile>, keep: seq<Entry>, name: string)
      modifies this`fs
      ensures fs == Swept(world, db, keep, name, list, old(fs))
      ensures forall i :: 0 <= i < |list| && Removable(world, db, keep, name, list[i].path) ==> list[i].path !in fs
    {
      hide OtherLists, Paths;
      var i := |list|;
      assert list[..i] == list;
      while i > 0
        invariant 0 <= i <= |list| && fs <= old(fs)
        invariant Swept(world, db, keep, name, list[..i], fs) == Swept(world, db, keep, name, list, old(fs))
        invariant forall j :: i <= j < |list| && Removable(world, db, keep, name, list[j].path) ==> list[j].path !in fs
      {
        assert list[..i][..i - 1] == list[..i - 1];
        i := i - 1;
        var still := HasEntry(keep, list[i].path);
        var shared := OtherOwner(list[i].path, name);
        if !still && !shared {
          var gone := Unlink(list[i].path);
        }
      }
    }

    /** The end of install_file: extract, prune, record. Ownership stays single and
        listed files stay in place exactly when it says. */
    method WriteOut(p: Pkg, was: bool, force: bool) returns (ok: bool)
      requires world.Holds(p) && Loaded(p) && p.name !in stack
      requires (was <==> p.name in db) && (was ==> force) && (!force ==> !Conflict(db, p))
      requires world.Faithful() ==> forall d :: d in p.depends ==> d in db
      modifies this`db, this`meta, this`fs, this`clock, this`lost
      ensures Step(world, force, stack, old(db), old(meta), old(fs), old(lost), db, meta, fs, lost)
      ensures Wrote(world, p, world.disk(old(clock)), old(db), old(meta), old(fs), db, meta, fs)
      ensures clock == old(clock) + 1
      ensures ok <==> Works(world.disk(old(clock)), p.files)
      ensures ok ==> db == old(db)[p.name := Text(p.files)] && Installed(p, db, meta, fs)
      ensures old(Single(db)) && !Conflict(old(db), p) ==>
        (Single(db) <==> StaysSingle(world.disk(old(clock)), old(db), p))
      ensures forall all :: Kept(all, old(db), old(fs), db, fs) <==>
        !Loses(all, world, p, world.disk(old(clock)), old(db), old(fs))
      ensures lost == (old(lost) || Loses(true, world, p, world.disk(old(clock)), old(db), old(fs)))
    {
      hide *;
      ghost var d := world.disk(clock);
      ok := Record(p, was, force);
      WroteExactly(world, p, d, old(db), old(meta), old(fs), db, meta, fs);
      lost := lost || Loses(true, world, p, d, old(db), old(fs));
      if ok {
        WroteInstalled(world, p, d, old(db), old(meta), old(fs), db, meta, fs);
      }
      WroteStep(world, force, stack, old(db), old(meta), old(fs), old(lost), p, old(clock), db, meta, fs, lost);
    }

    method Record(p: Pkg, was: bool, force: bool) returns (ok: bool)
      requires Loaded(p) && (was <==> p.name in db)
      modifies this`db, this`meta, this`fs, this`clock
      ensures Wrote(world, p, world.disk(old(clock)), old(db), old(meta), old(fs), db, meta, fs)
      ensures clock == old(clock) + 1
      ensures ok <==> Works(world.disk(old(clock)), p.files)
      ensures ok ==> db == old(db)[p.name := Text(p.files)]
    {
      hide Text, WellFormed, Paths, ParseText, Pruned;
      var d := world.disk(clock);
      clock := clock + 1;
      ok := Extract(p.files, d);
      if !ok {
        return;
      }
      if was {
        Prune(p);
      } else {
        NoPrune(world, db, p, fs);
      }
      ok := !d.RecordFails?;
      if ok {
        meta := meta[p.name := p.depends];
        ok := !d.ListFails?;
      }
      if ok {
        var text := PrintList(p.files);
        db := db[p.name := Written(d, text.value)];
        ok := !d.Torn?;
      }
    }

    /** prune_old */
    method Prune(p: Pkg)
      requires p.name in db
      modifies this`fs
      ensures fs == Pruned(world, db, p, old(fs))
    {
      hide OtherLists, Paths, ParseText, Swept;
      var list := ReadList(db[p.name]);
      if list.Some? {
        UnlinkList(list.value, p.files, p.name);
      }
    }

    ghost predicate Unchanged(db0: Db, meta0: Meta, fs0: set<string>, clock0: nat)
      reads this
    {
      db == db0 && meta == meta0 && fs == fs0 && clock == clock0
    }

    method Install(loaded: Option<Pkg>, force: bool, ghost plan: Plan) returns (ok: bool)
      requires world.Valid() && (loaded.Some? ==> world.Holds(loaded.value)) && |stack| <= MAX_DEPTH
      modifies this
      ensures stack == old(stack)
      ensures Step(world, force, stack, old(db), old(meta), old(fs), old(lost), db, meta, fs, lost)
      ensures ok ==> loaded.Some? && loaded.value.name in db
      // refused, or already there
      ensures loaded.None? || loaded.value.name in stack ==> !ok && Unchanged(old(db), old(meta), old(fs), old(clock))
      ensures loaded.Some? && loaded.value.name !in stack && loaded.value.name in old(db) && !force ==>
        ok && Unchanged(old(db), old(meta), old(fs), old(clock))
      // otherwise success means that it is there with all it depends on
      ensures ok && !(loaded.value.name in old(db) && !force) ==>
        && Installed(loaded.value, db, meta, fs)
        && (world.Faithful() ==> forall x :: x in loaded.value.depends ==> x in db)
      // nothing missing
      ensures loaded.Some? && Ready(loaded.value, old(db), stack, force) ==>
        (ok <==> && |stack| < MAX_DEPTH && (force || !Conflict(old(db), loaded.value))
                 && Works(world.disk(old(clock)), loaded.value.files))
      ensures loaded.Some? && Passes(loaded.value, old(db), stack, force) ==>
        && Wrote(world, loaded.value, world.disk(old(clock)), old(db), old(meta), old(fs), db, meta, fs)
        && clock == old(clock) + 1
      ensures loaded.Some? && Passes(loaded.value, old(db), stack, force)
              && old(Single(db)) && !Conflict(old(db), loaded.value) ==>
        (Single(db) <==> StaysSingle(world.disk(old(clock)), old(db), loaded.value))
      ensures loaded.Some? && Passes(loaded.value, old(db), stack, force) ==> forall all ::
        Kept(all, old(db), old(fs), db, fs) <==>
          !Loses(all, world, loaded.value, world.disk(old(clock)), old(db), old(fs))
      ensures loaded.Some? && CanInstall(world, plan, old(db), stack, loaded.value) ==>
        ok && Feasible(world, plan) && Compatible(world, plan, db)
      decreases MAX_DEPTH - |stack|, 1
    {
      hide Closed, Disjoint, Conflict, WellFormed, Text, Paths, Compatible, Feasible, Kept, Works;
      hide CanInstall, Single, StaysSingle, Wrote, Loses, Step, Installed, World.Faithful;
      ok := InstallOne(loaded, force, plan);
      if loaded.Some? && Passes(loaded.value, old(db), stack, force) {
        WroteExactly(world, loaded.value, world.disk(old(clock)), old(db), old(meta), old(fs), db, meta, fs);
      }
    }

    /** install_file */
    method InstallOne(loaded: Option<Pkg>, force: bool, ghost plan: Plan) returns (ok: bool)
      requires world.Valid() && (loaded.Some? ==> world.Holds(loaded.value)) && |stack| <= MAX_DEPTH
      modifies this
      ensures stack == old(stack)
      ensures Step(world, force, stack, old(db), old(meta), old(fs), old(lost), db, meta, fs, lost)
      ensures ok ==> loaded.Some? && loaded.value.name in db
      // refused, or already there
      ensures loaded.None? || loaded.value.name in stack ==> !ok && Unchanged(old(db), old(meta), old(fs), old(clock))
      ensures loaded.Some? && loaded.value.name !in stack && loaded.value.name in old(db) && !force ==>
        ok && Unchanged(old(db), old(meta), old(fs), old(clock))
      // otherwise success means that it is there with all it depends on
      ensures ok && !(loaded.value.name in old(db) && !force) ==>
        && Installed(loaded.value, db, meta, fs)
        && (world.Faithful() ==> forall x :: x in loaded.value.depends ==> x in db)
      // nothing missing
      ensures loaded.Some? && Ready(loaded.value, old(db), stack, force) ==>
        (ok <==> && |stack| < MAX_DEPTH && (force || !Conflict(old(db), loaded.value))
                 && Works(world.disk(old(clock)), loaded.value.files))
      ensures loaded.Some? && Passes(loaded.value, old(db), stack, force) ==>
        && Wrote(world, loaded.value, world.disk(old(clock)), old(db), old(meta), old(fs), db, meta, fs)
        && clock == old(clock) + 1
      ensures loaded.Some? && CanInstall(world, plan, old(db), stack, loaded.value) ==>
        ok && Feasible(world, plan) && Compatible(world, plan, db)
      decreases MAX_DEPTH - |stack|, 0
    {
      hide Closed, Disjoint, Kept, Conflict, WellFormed, Text, Paths, Compatible, Feasible;
      hide CanInstall, Going, Single, StaysSingle, Wrote, Loses, Step, Genuine, Installed, World.Faithful, Works;
      if loaded.Some? {
        StartGoing(world, plan, db, stack, loaded.value);
      }
      StepGrow(world, force, stack, db, meta, fs, fs, lost);
      if loaded.None? || loaded.value.name in stack {
        return false;
      }
      var p := loaded.value;
      var was := p.name in db;
      if was && !force {
        return true;
      }
      if |stack| >= MAX_DEPTH {
        return false;
      }
      stack := stack + [p.name];
      ok := InstallDepends(p, force, plan, old(db));
      stack := stack[..|stack| - 1];
      StepBusy(world, force, stack, p.name, old(db), old(meta), old(fs), old(lost), db, meta, fs, lost);
      if !ok {
        return;
      }
      if Going(world, plan, old(db), db, stack + [p.name], p) {
        CanWrite(world, plan, old(db), db, stack, p, clock);
      }
      ghost var db1, meta1, fs1, lost1 := db, meta, fs, lost;
      ok := CheckAndWrite(p, was, force);
      StepTrans(world, force, stack, old(db), old(meta), old(fs), old(lost), db1, meta1, fs1, lost1, db, meta, fs,
                lost);
    }

    /** The conflict check, and then writing out. */
    method CheckAndWrite(p: Pkg, was: bool, force: bool) returns (ok: bool)
      requires world.Holds(p) && Loaded(p) && p.name !in stack && (was <==> p.name in db) && (was ==> force)
      requires world.Faithful() ==> forall d :: d in p.depends ==> d in db
      modifies this`db, this`meta, this`fs, this`clock, this`lost
      ensures Step(world, force, stack, old(db), old(meta), old(fs), old(lost), db, meta, fs, lost)
      ensures force || !Conflict(old(db), p) ==>
        && Wrote(world, p, world.disk(old(clock)), old(db), old(meta), old(fs), db, meta, fs)
        && clock == old(clock) + 1 && (ok <==> Works(world.disk(old(clock)), p.files))
        && (ok ==> db == old(db)[p.name := Text(p.files)] && Installed(p, db, meta, fs))
      ensures !force && Conflict(old(db), p) ==> !ok && Unchanged(old(db), old(meta), old(fs), old(clock))
    {
      hide Step, Wrote, Conflict, Works, Text, Installed, Single, StaysSingle, Kept, Loses, WellFormed;
      var conflicts := CountConflicts(p);
      if conflicts > 0 && !force {
        StepGrow(world, force, stack, db, meta, fs, fs, lost);
        return false;
      }
      ok := WriteOut(p, was, force);
    }

    /** The dependencies, in order; `p` is on top of the stack. */
    method InstallDepends(p: Pkg, force: bool, ghost plan: Plan, ghost db0: Db) returns (ok: bool)
      requires world.Valid() && 0 < |stack| <= MAX_DEPTH && stack[|stack| - 1] == p.name
      modifies this
      ensures stack == old(stack)
      ensures Step(world, force, stack, old(db), old(meta), old(fs), old(lost), db, meta, fs, lost)
      ensures ok && world.Faithful() ==> forall x :: x in p.depends ==> x in db
      ensures (forall x :: x in p.depends ==> x in old(db)) ==> ok && Unchanged(old(db), old(meta), old(fs), old(clock))
      ensures Going(world, plan, db0, old(db), stack, p) ==> ok && Going(world, plan, db0, db, stack, p)
      decreases MAX_DEPTH - |stack|, 3
    {
      hide Closed, Genuine, Disjoint, Kept, WellFormed, Installable, Going, Step, Installed, Compatible, Feasible;
      StepGrow(world, force, stack, db, meta, fs, fs, lost);
      var i := 0;
      while i < |p.depends|
        invariant 0 <= i <= |p.depends| && stack == old(stack)
        invariant Step(world, force, stack, old(db), old(meta), old(fs), old(lost), db, meta, fs, lost)
        invariant world.Faithful() ==> forall j :: 0 <= j < i ==> p.depends[j] in db
        invariant (forall x :: x in p.depends ==> x in old(db)) ==> Unchanged(old(db), old(meta), old(fs), old(clock))
        invariant Going(world, plan, db0, old(db), stack, p) ==> Going(world, plan, db0, db, stack, p)
      {
        if p.depends[i] !in db {
          ghost var db1, meta1, fs1, lost1 := db, meta, fs, lost;
          if Going(world, plan, db0, db, stack, p) {
            GoingOn(world, plan, db0, db, stack, p, p.depends[i]);
          }
          ok := InstallByName(p.depends[i], force, plan);
          StepKeys(world, force, stack, db1, meta1, fs1, lost1, db, meta, fs, lost);
          StepTrans(world, force, stack, old(db), old(meta), old(fs), old(lost), db1, meta1, fs1, lost1, db, meta, fs,
                    lost);
          if !ok {
            return;
          }
        }
        i := i + 1;
      }
      return true;
    }

    method InstallByName(name: string, force: bool, ghost plan: Plan) returns (ok: bool)
      requires world.Valid() && |stack| <= MAX_DEPTH
      modifies this
      ensures stack == old(stack)
      ensures Step(world, force, stack, old(db), old(meta), old(fs), old(lost), db, meta, fs, lost)
      ensures ok && world.Faithful() ==> name in db
      ensures Installable(world, plan, old(db), stack, name) ==>
        ok && Feasible(world, plan) && Compatible(world, plan, db)
      ensures ok && name !in old(db) && world.Faithful() ==>
        && world.byName(name).Some? && Installed(world.byName(name).value, db, meta, fs)
        && forall x :: x in world.byName(name).value.depends ==> x in db
      decreases MAX_DEPTH - |stack|, 2
    {
      hide Step, Compatible, Installed;
      if Installable(world, plan, db, stack, name) {
        assert world.byName(name).Some? && world.byName(name).value.name == name;
      }
      ok := Install(world.byName(name), force, plan);
    }

    /** kpkg install of one name. */
    method InstallCommand(name: string, force: bool) returns (ok: bool)
      requires world.Valid() && stack == []
      modifies this
      ensures stack == []
      ensures Step(world, force, [], old(db), old(meta), old(fs), old(lost), db, meta, fs, lost)
      ensures ok && world.Faithful() ==> name in db
      ensures (exists plan :: Installable(world, plan, old(db), [], name)) ==> ok
      ensures ok && name !in old(db) && world.Faithful() ==>
        && world.byName(name).Some? && Installed(world.byName(name).value, db, meta, fs)
        && forall x :: x in world.byName(name).value.depends ==> x in db
    {
      hide Step, Installable, Installed;
      ghost var plan := Plan({}, _ => 0);
      if exists q :: Installable(world, q, db, [], name) {
        plan :| Installable(world, plan, db, [], name);
      }
      ok := InstallByName(name, force, plan);
    }

    method Remove(name: string) returns (ok: bool)
      modifies this`db, this`meta, this`fs, this`lost
      ensures ok <==> name in old(db) && |old(db)[name]| <= LIST_LIMIT
      ensures !ok ==> Unchanged(old(db), old(meta), old(fs), old(clock))
      ensures ok ==> db == old(db) - {name} && meta == old(meta) - {name}
      ensures ok ==> fs == Swept(world, old(db), [], name, ParseText(old(db)[name]), old(fs))
      // only its own files go ...
      ensures fs <= old(fs) && forall x :: x in old(fs) && x !in fs ==> name in old(db) && Lists(old(db)[name], x)
      // ... never one that another package is seen to list, and one that another
      // package lists exactly when it says ...
      ensures Kept(false, old(db), old(fs), db, fs)
      ensures ok ==> (Kept(true, old(db), old(fs), db, fs) <==> !HiddenLoss(old(db), name, old(fs), fs))
      ensures lost == (old(lost) || (ok && HiddenLoss(old(db), name, old(fs), fs)))
      ensures !lost ==> Kept(true, old(db), old(fs), db, fs)
      // ... and all of those that can
      ensures ok ==> forall x :: Lists(old(db)[name], x) && Removable(world, old(db), [], name, x) ==> x !in fs
      ensures old(Disjoint(db)) ==> Disjoint(db)
      ensures old(AllSeen(db)) ==> AllSeen(db) && lost == old(lost)
    {
      hide ParseText, Paths, Owns, Swept, OtherLists, Kept, HiddenLoss, Disjoint, AllSeen;
      NothingChanged(db, fs);
      if name !in db {
        return false;
      }
      var list := ReadList(db[name]);
      if list.None? {
        return false;
      }
      UnlinkList(list.value, [], name);
      SweptFacts(world, db, [], name, list.value, old(fs));
      RemoveExact(world, db, name, old(fs));
      RemoveKeeps(db, name);
      NoneHidden(db, name, old(fs), fs);
      lost := lost || HiddenLoss(db, name, old(fs), fs);
      db := db - {name};
      meta := meta - {name};
      return true;
    }

    /** Any sequence of commands from an empty database. */
    method Session(cmds: seq<Command>)
      requires world.Valid() && db == map[] && meta == map[] && stack == [] && !lost
      modifies this
      ensures Genuine(world, db, meta)
      ensures world.Faithful() && (forall i :: 0 <= i < |cmds| ==> !cmds[i].Remove?) ==> Closed(db, meta)
      ensures world.Whole() && Unforced(cmds) ==> Disjoint(db)
      ensures world.Whole() && Unforced(cmds) && world.Tidy() ==> Single(db)
      // every listed path exists as long as no command has lost one, which none
      // does when every package is visible and lists and records are written
      ensures !lost ==> Present(true, db, fs)
      ensures world.Whole() && (Unforced(cmds) || world.Reliable()) ==> Present(false, db, fs)
      ensures world.Whole() && (Unforced(cmds) || world.Reliable()) && world.Tidy() ==> !lost
    {
      hide Closed, Genuine, Disjoint, Lists, AllSeen, Single, HiddenLoss, Swept, Installed;
      NothingRegistered(meta, fs);
      NothingGenuine(world);
      var i := 0;
      while i < |cmds|
        invariant 0 <= i <= |cmds| && stack == [] && Genuine(world, db, meta)
        invariant world.Faithful() && (forall j :: 0 <= j < i ==> !cmds[j].Remove?) ==> Closed(db, meta)
        invariant world.Whole() && Unforced(cmds) ==> Disjoint(db)
        invariant world.Tidy() ==> AllSeen(db)
        invariant world.Whole() && (Unforced(cmds) || world.Reliable()) ==> Kept(false, map[], {}, db, fs)
        invariant !lost ==> Kept(true, map[], {}, db, fs)
        invariant world.Whole() && (Unforced(cmds) || world.Reliable()) && world.Tidy() ==> !lost
      {
        ghost var db0, fs0 := db, fs;
        var ok;
        match cmds[i] {
          case Install(name, force) => ok := InstallCommand(name, force);
          case InstallFile(path, force) => ok := Install(world.byFile(path), force, Plan({}, _ => 0));
          case Remove(name) =>
            GenuineWithout(world, db, meta, name);
            ok := Remove(name);
        }
        if !lost {
          KeptTrans(true, map[], {}, db0, fs0, db, fs);
        }
        if world.Whole() && (Unforced(cmds) || world.Reliable()) {
          KeptTrans(false, map[], {}, db0, fs0, db, fs);
        }
        i := i + 1;
      }
      if world.Tidy() {
        SeenSingle(db);
      }
    }
  }

  /** Installing a package and removing it again leaves everything as it was: the
      package is new and needs nothing, its files are new and in no list, the disk works
      and nothing stands in the way of deleting them. */
  method InstallThenRemove(m: Manager, p: Pkg) returns (ok: bool)
    requires m.world.Valid() && m.stack == [] && m.world.byName(p.name) == Some(p)
    requires p.name !in m.db && p.name !in m.meta && p.depends == [] && |Text(p.files)| <= LIST_LIMIT
    requires forall x :: x in Paths(p.files) ==> x !in m.fs && forall fs :: m.world.unlinks(x, fs)
    requires forall n, x :: n in m.db && x in Paths(p.files) ==> !Lists(m.db[n], x)
    requires m.world.disk(m.clock) == Fine
    modifies m
    ensures ok && m.db == old(m.db) && m.meta == old(m.meta) && m.fs == old(m.fs)
  {
    hide Step, Kept, Single, StaysSingle, Loses, Text, ParseText, Lists, Swept, Disjoint, AllSeen, HiddenLoss, Paths;
    ghost var db, meta, fs := m.db, m.meta, m.fs;
    NoClash(db, p);
    assert m.world.Holds(p);
    assert Passes(p, db, [], false);
    ok := m.Install(Some(p), false, Plan({}, _ => 0));
    NoPrune(m.world, db, p, fs + Paths(p.files));
    assert m.fs == fs + Paths(p.files) && m.db == db[p.name := Text(p.files)];
    ghost var db1 := m.db;
    ok := m.Remove(p.name);
    assert m.db == db && m.meta == meta;
    TakenBack(m.world, db1, p, fs, m.fs);
  }

  lemma NoClash(db: Db, p: Pkg)
    requires forall n, x :: n in db && x in Paths(p.files) ==> !Lists(db[n], x)
    ensures !Conflict(db, p)
  {
    hide ParseText;
    forall n, i | n in db && 0 <= i < |p.files|
      ensures !Owns(db[n], p.files[i].path)
    {
      assert p.files[i].path in Paths(p.files);
    }
  }

  lemma TakenBack(w: World, db: Db, p: Pkg, fs: set<string>, after: set<string>)
    requires Loaded(p) && p.name in db && db[p.name] == Text(p.files) && |Text(p.files)| <= LIST_LIMIT
    requires forall x :: x in Paths(p.files) ==> x !in fs && forall g :: w.unlinks(x, g)
    requires forall n, x :: n in db && n != p.name && x in Paths(p.files) ==> !Lists(db[n], x)
    requires after <= fs + Paths(p.files)
    requires forall x :: x in fs + Paths(p.files) && x !in after ==> Lists(db[p.name], x)
    requires forall x :: Lists(db[p.name], x) && Removable(w, db, [], p.name, x) ==> x !in after
    ensures after == fs
  {
    hide Text, ParseText, WellFormed, Lists;
    AllFit(p.files);
    forall x
      ensures Lists(db[p.name], x) <==> x in Paths(p.files)
    {
      TextLists(p.files, x);
    }
    forall x | x in Paths(p.files)
      ensures x !in after
    {
      assert Removable(w, db, [], p.name, x);
    }
  }

  lemma NoPrune(w: World, db: Db, p: Pkg, fs: set<string>)
    requires p.name !in db
    ensures Pruned(w, db, p, fs) == fs
  {
  }

  lemma WroteStep(w: World, force: bool, busy: seq<string>, db: Db, meta: Meta, fs: set<string>, lost: bool, p: Pkg,
                  k: nat,
                  db': Db, meta': Meta, fs': set<string>, lost': bool)
    requires Loaded(p) && p.name !in busy && (p.name in db ==> force) && (!force ==> !Conflict(db, p))
    requires w.Faithful() ==> forall x :: x in p.depends ==> x in db
    requires w.Holds(p) && Wrote(w, p, w.disk(k), db, meta, fs, db', meta', fs')
    requires forall all :: Kept(all, db, fs, db', fs') <==> !Loses(all, w, p, w.disk(k), db, fs)
    requires lost' == (lost || Loses(true, w, p, w.disk(k), db, fs))
    ensures Step(w, force, busy, db, meta, fs, lost, db', meta', fs', lost')
  {
    hide Kept, Pruned, Loses, Closed, Genuine, Installed, Disjoint, AllSeen, Conflict, Wrote, Text, WellFormed;
    if w.Whole() && (!force || w.Reliable()) {
      SeldomLoses(w, p, k, db, fs, force);
    }
    WroteDb(w, p, w.disk(k), db, meta, fs, db', meta', fs', force);
  }

  /** What recording a package does to the database. */
  lemma WroteDb(w: World, p: Pkg, d: Disk, db: Db, meta: Meta, fs: set<string>, db': Db, meta': Meta, fs': set<string>,
                force: bool)
    requires Wrote(w, p, d, db, meta, fs, db', meta', fs') && Loaded(p) && (p.name in db ==> force)
    ensures db.Keys <= db'.Keys <= db.Keys + {p.name}
    ensures forall n :: n in db && (n != p.name || !force) ==> db'[n] == db[n]
    ensures (forall x :: x in p.depends ==> x in db) && Closed(db, meta) ==> Closed(db', meta')
    ensures !d.Torn? && !Conflict(db, p) && Disjoint(db) ==> Disjoint(db')
    ensures Visible(p) && AllSeen(db) ==> AllSeen(db')
    ensures w.Holds(p) && Genuine(w, db, meta) ==> Genuine(w, db', meta')
  {
    hide Disjoint, Conflict, Text, WellFormed, World.Holds, Pruned, Closed, AllSeen, Genuine, Installed;
    WroteClosed(w, p, d, db, meta, fs, db', meta', fs');
    WroteGenuine(w, p, d, db, meta, fs, db', meta', fs');
    if !d.Torn? && !Conflict(db, p) && Disjoint(db) {
      RegisterDisjoint(db, p);
    }
  }

  /** When ownership stays single and listed files stay in place. */
  lemma WroteExactly(w: World, p: Pkg, d: Disk, db: Db, meta: Meta, fs: set<string>, db': Db, meta': Meta,
                     fs': set<string>)
    requires Wrote(w, p, d, db, meta, fs, db', meta', fs') && Loaded(p)
    ensures Single(db) && !Conflict(db, p) ==> (Single(db') <==> StaysSingle(d, db, p))
    ensures forall all :: Kept(all, db, fs, db', fs') <==> !Loses(all, w, p, d, db, fs)
  {
    hide *;
    if Single(db) && !Conflict(db, p) {
      WroteSingle(w, p, d, db, meta, fs, db', meta', fs');
    }
    forall all
      ensures Kept(all, db, fs, db', fs') <==> !Loses(all, w, p, d, db, fs)
    {
      WroteKept(all, w, p, d, db, meta, fs, db', meta', fs');
    }
  }

  lemma WroteClosed(w: World, p: Pkg, d: Disk, db: Db, meta: Meta, fs: set<string>, db': Db, meta': Meta,
                    fs': set<string>)
    requires Wrote(w, p, d, db, meta, fs, db', meta', fs')
    ensures (forall x :: x in p.depends ==> x in db) && Closed(db, meta) ==> Closed(db', meta')
    ensures Loaded(p) && Visible(p) && AllSeen(db) ==> AllSeen(db')
  {
    hide Text, WellFormed, Pruned;
  }

  lemma WroteGenuine(w: World, p: Pkg, d: Disk, db: Db, meta: Meta, fs: set<string>, db': Db, meta': Meta,
                     fs': set<string>)
    requires Wrote(w, p, d, db, meta, fs, db', meta', fs')
    ensures w.Holds(p) && Genuine(w, db, meta) ==> Genuine(w, db', meta')
  {
    hide Text, WellFormed, World.Holds, Pruned;
    if w.Holds(p) && Genuine(w, db, meta) {
      forall n | n in meta'
        ensures exists q :: w.Holds(q) && q.name == n && meta'[n] == q.depends
      {
        if n == p.name && meta' != meta { assert meta'[n] == p.depends; }
      }
      forall n | n in db'
        ensures exists q :: w.Holds(q) && q.name == n && db'[n] <= Text(q.files)
      {
        if n == p.name && db' != db { assert db'[n] <= Text(p.files); }
      }
    }
  }

  lemma WroteInstalled(w: World, p: Pkg, d: Disk, db: Db, meta: Meta, fs: set<string>, db': Db, meta': Meta,
                       fs': set<string>)
    requires Wrote(w, p, d, db, meta, fs, db', meta', fs') && Works(d, p.files)
    ensures Installed(p, db', meta', fs')
  {
    hide Text, WellFormed, ParseText, OtherLists, Swept;
    forall i | 0 <= i < |p.files|
      ensures p.files[i].path in fs'
    {
      assert p.files[i].path in Paths(p.files);
      if p.name in db { SweptFacts(w, db, p.files, p.name, ParseText(db[p.name]), fs + Paths(p.files)); }
    }
  }

  /** Without torn lists, and without lost records after a prune, only files of
      hidden packages are lost. */
  lemma SeldomLoses(w: World, p: Pkg, k: nat, db: Db, fs: set<string>, force: bool)
    requires w.Whole() && (!force || w.Reliable()) && (p.name in db ==> force)
    ensures !Loses(false, w, p, w.disk(k), db, fs)
    ensures AllSeen(db) ==> !Loses(true, w, p, w.disk(k), db, fs)
  {
    hide Lists, Text, Paths, Pruned, Swept, Deletable;
  }

  /** A cut list names its whole entries and what is left of the last path. */
  lemma TornLists(es: seq<Entry>, n: nat, x: string)
    requires (forall i :: 0 <= i < |es| ==> WellFormed(es[i])) && n <= |Text(es)|
    ensures Lists(Text(es)[..n], x) <==> x in Paths(es[..TornAt(es, n).whole]) || x in Paths(TornAt(es, n).cut)
  {
    hide WellFormed, Fits, Text, ParseText, TornAt, Lists, Paths;
    AllFit(es);
    TornBack(es, n);
    StoredLists(Text(es)[..n], TornEntries(es, n), x);
    PathsOfConcat(es[..TornAt(es, n).whole], TornAt(es, n).cut);
  }

  lemma StoredLists(text: string, es: seq<Entry>, x: string)
    requires ParseText(text) == AllStored(es)
    ensures Lists(text, x) <==> x in Paths(es)
  {
    hide ParseText;
  }

  lemma PathsOfConcat(a: seq<Entry>, b: seq<Entry>)
    ensures Paths(a + b) == Paths(a) + Paths(b)
  {
    assert forall i :: 0 <= i < |a| ==> (a + b)[i] == a[i];
    assert forall i :: 0 <= i < |b| ==> (a + b)[|a| + i] == b[i];
  }

  /** Listed files are lost exactly when it says, for every way the disk can
      behave. */
  lemma WroteKept(all: bool, w: World, p: Pkg, d: Disk, db: Db, meta: Meta, fs: set<string>, db': Db, meta': Meta,
                  fs': set<string>)
    requires Wrote(w, p, d, db, meta, fs, db', meta', fs') && Loaded(p)
    ensures Kept(all, db, fs, db', fs') <==> !Loses(all, w, p, d, db, fs)
  {
    hide Lists, Paths, Pruned, Text, OtherLists, WellFormed, TornAt, Prunes, KeptOf, HiddenLoss, CutLost;
    PrunedFacts(w, db, p, fs + Paths(p.files));
    KeptEach(all, db, fs, db', fs');
    if d.ExtractFails? && d.at < |p.files| {
      forall n | Counts(all, db', n)
        ensures KeptOf(n, db, fs, db', fs')
      {
        AllThere(n, db, fs, fs');
      }
    } else {
      OthersKept(all, p, db, fs, db', fs');
      OwnKept(all, w, p, d, db, fs, db', fs');
    }
  }

  /** ... for one package. */
  ghost predicate KeptOf(n: string, db0: Db, fs0: set<string>, db1: Db, fs1: set<string>)
    requires n in db1
  {
    forall x :: Lists(db1[n], x) && (x in fs0 || n !in db0 || db0[n] != db1[n]) ==> x in fs1
  }

  lemma KeptEach(all: bool, db0: Db, fs0: set<string>, db1: Db, fs1: set<string>)
    ensures Kept(all, db0, fs0, db1, fs1) <==> forall n :: Counts(all, db1, n) ==> KeptOf(n, db0, fs0, db1, fs1)
  {
    hide Lists;
  }

  lemma AllThere(n: string, db: Db, fs: set<string>, fs': set<string>)
    requires n in db && fs <= fs'
    ensures KeptOf(n, db, fs, db, fs')
  {
    hide Lists;
  }

  lemma OthersKept(all: bool, p: Pkg, db: Db, fs: set<string>, db': Db, fs': set<string>)
    requires forall n :: n != p.name ==> (n in db' <==> n in db) && (n in db ==> db'[n] == db[n])
    requires forall x :: x in fs && x !in fs' ==> !OtherLists(db, x, p.name)
    ensures (forall n :: n != p.name && Counts(all, db', n) ==> KeptOf(n, db, fs, db', fs')) <==>
      !(all && HiddenLoss(db, p.name, fs, fs'))
  {
    hide Lists, OtherLists;
    forall n, x | n != p.name && n in db && Lists(db[n], x) && x in fs && x !in fs'
      ensures !Seen(db, n) && !Seen(db', n)
    {
      if Seen(db, n) { OneLists(db, x, p.name, n); }
    }
    if all && HiddenLoss(db, p.name, fs, fs') {
      var n, x :| n != p.name && n in db && !Seen(db, n) && Lists(db[n], x) && x in fs && x !in fs';
      assert Counts(all, db', n) && Lists(db'[n], x) && !KeptOf(n, db, fs, db', fs');
    }
  }

  lemma OwnKept(all: bool, w: World, p: Pkg, d: Disk, db: Db, fs: set<string>, db': Db, fs': set<string>)
    requires Loaded(p) && !(d.ExtractFails? && d.at < |p.files|)
    requires db' == (if Records(d, p.files) then db[p.name := Written(d, Text(p.files))] else db)
    requires fs' == Pruned(w, db, p, fs + Paths(p.files))
    ensures (Counts(all, db', p.name) ==> KeptOf(p.name, db, fs, db', fs')) <==>
      !( || (!Records(d, p.files) && Counts(all, db, p.name) && Prunes(w, db, p, fs + Paths(p.files)))
         || (d.Torn? && d.length < |Text(p.files)|
             && CutLost(all, p, Text(p.files)[..d.length], d.length, db, fs, fs')))
  {
    hide Lists, Paths, Pruned, Text, OtherLists, WellFormed, TornAt, Prunes;
    PrunedFacts(w, db, p, fs + Paths(p.files));
    if Records(d, p.files) {
      if d.Torn? && d.length < |Text(p.files)| {
        forall x
          ensures Lists(db'[p.name], x) <==>
            x in Paths(p.files[..TornAt(p.files, d.length).whole]) || x in Paths(TornAt(p.files, d.length).cut)
        {
          TornLists(p.files, d.length, x);
        }
        SomePaths(p.files, TornAt(p.files, d.length).whole);
      } else {
        forall x
          ensures Lists(db'[p.name], x) <==> x in Paths(p.files)
        {
          TextLists(p.files, x);
        }
      }
    }
  }

  lemma SomePaths(es: seq<Entry>, n: nat)
    requires n <= |es|
    ensures Paths(es[..n]) <= Paths(es)
  {
    assert forall i :: 0 <= i < n ==> es[..n][i] == es[i];
  }

  lemma OneLists(db: Db, x: string, skip: string, n: string)
    requires n != skip && Seen(db, n) && Lists(db[n], x)
    ensures OtherLists(db, x, skip)
  {
  }

  // ---- inputs on which more would be false ------------------------------

  /** Two package files and a disk. */
  function Pair(first: Pkg, second: Pkg, disk: nat -> Disk): World {
    World(_ => None, f => if f == "first" then Some(first) else if f == "second" then Some(second) else None,
          disk, (_, _) => true)
  }

  lemma PairValid(first: Pkg, second: Pkg, disk: nat -> Disk)
    requires Loaded(first) && Loaded(second)
    ensures var w := Pair(first, second, disk);
            && w.Valid() && w.Holds(first) && w.Holds(second)
            && w.byFile("first") == Some(first) && w.byFile("second") == Some(second)
  {
    hide Loaded;
    var w := Pair(first, second, disk);
    assert w.byFile("first") == Some(first) && w.byFile("second") == Some(second);
    forall p | w.Holds(p)
      ensures Loaded(p)
    {
      var f :| w.byFile(f) == Some(p);
    }
  }

  predicate OwnedBy(p: Pkg, x: string) { exists i :: 0 <= i < |p.files| && p.files[i].path == x && !p.files[i].isDir }

  /** Install `first`, which the database walk does not show, and then `second`
      with one of its files: both succeed and the file has two owners. */
  method SecondOwner(first: Pkg, second: Pkg, x: string) returns (m: Manager)
    requires Loaded(first) && Loaded(second) && first.depends == [] == second.depends && first.name != second.name
    requires !Visible(first) && OwnedBy(first, x) && OwnedBy(second, x)
    ensures first.name in m.db && second.name in m.db && !Single(m.db)
    ensures fresh(m) && (forall x, f :: m.world.unlinks(x, f))
    ensures m.db == map[first.name := Text(first.files), second.name := Text(second.files)]
  {
    hide Loaded, Text, Single, OwnedBy, Step, Paths, Prunes, OtherLists, Lists, Pruned, Loses;
    m := new Manager(Pair(first, second, _ => Fine));
    PairValid(first, second, _ => Fine);
    var ok := m.Install(m.world.byFile("first"), false, Plan({}, _ => 0));
    NoConflict(map[], first);
    ghost var db := m.db;
    assert db == map[first.name := Text(first.files)];
    NoConflict(db, second);
    ok := m.Install(m.world.byFile("second"), false, Plan({}, _ => 0));
    assert m.db == db[second.name := Text(second.files)];
    BothOwn(first, second, x);
  }

  /** ... and removing `second` deletes the file from under `first`. */
  method RemovedFromUnder(first: Pkg, second: Pkg, x: string) returns (m: Manager)
    requires Loaded(first) && Loaded(second) && first.depends == [] == second.depends && first.name != second.name
    requires !Visible(first) && OwnedBy(first, x) && OwnedBy(second, x) && |Text(second.files)| <= LIST_LIMIT
    ensures first.name in m.db && Lists(m.db[first.name], x) && x !in m.fs
  {
    hide Loaded, Text, Single, OwnedBy, Step, Paths, Prunes, OtherLists, Lists, Swept, Loses;
    m := SecondOwner(first, second, x);
    ghost var db := m.db;
    NobodySees(first, second, x);
    var ok := m.Remove(second.name);
    assert Removable(m.world, db, [], second.name, x);
  }

  lemma NobodySees(first: Pkg, second: Pkg, x: string)
    requires Loaded(first) && Loaded(second) && first.name != second.name
    requires !Visible(first) && OwnedBy(first, x) && OwnedBy(second, x)
    ensures var db := map[first.name := Text(first.files), second.name := Text(second.files)];
            Lists(db[first.name], x) && Lists(db[second.name], x) && !OtherLists(db, x, second.name)
    ensures x !in Paths([])
  {
    hide Lists, Owns, Text, WellFormed;
    TextLists(first.files, x);
    TextLists(second.files, x);
  }

  lemma NoConflict(db: Db, p: Pkg)
    requires forall n :: n in db && n != p.name ==> !Seen(db, n)
    ensures !Conflict(db, p)
  {
  }

  lemma BothOwn(first: Pkg, second: Pkg, x: string)
    requires Loaded(first) && Loaded(second) && first.name != second.name && OwnedBy(first, x) && OwnedBy(second, x)
    ensures !Single(map[first.name := Text(first.files), second.name := Text(second.files)])
  {
    hide Owns, Text, WellFormed;
    TextLists(first.files, x);
    TextLists(second.files, x);
    var db := map[first.name := Text(first.files), second.name := Text(second.files)];
    assert Owns(db[first.name], x) && Owns(db[second.name], x);
  }

  const FILE_A: Entry := Entry("/a", 0, 0, 0, 0, false, seq(DIGEST, _ => 0))
  const FILE_AB: Entry := Entry("/ab", 0, 0, 0, 0, false, seq(DIGEST, _ => 0))
  const DOTTED: Pkg := Pkg(".x", [], [FILE_A])
  const LONG: Pkg := Pkg("x", [], seq(20000, _ => FILE_A))
  const ORDINARY: Pkg := Pkg("y", [], [FILE_A])

  lemma FilesWellFormed()
    ensures WellFormed(FILE_A) && WellFormed(FILE_AB)
  {
    assert "/a"[1..] == "a" && "a"[1..] == "";
    assert "/ab"[1..] == "ab" && "ab"[1..] == "b" && "b"[1..] == "";
  }

  /** A name that starts with a dot and a list beyond the read limit both hide
      their owner. */
  lemma HiddenInputs()
    ensures Loaded(DOTTED) && !Visible(DOTTED) && OwnedBy(DOTTED, "/a")
    ensures Loaded(LONG) && !Visible(LONG) && OwnedBy(LONG, "/a")
    ensures Loaded(ORDINARY) && OwnedBy(ORDINARY, "/a")
  {
    hide WellFormed, Text;
    FilesWellFormed();
    LongText(LONG.files);
    assert DOTTED.files[0] == FILE_A && LONG.files[0] == FILE_A && ORDINARY.files[0] == FILE_A;
  }

  lemma OneFile(a: Entry, name: string)
    requires WellFormed(a) && name != "" && name[0] != '.'
    ensures var db := map[name := Text([a])];
            && Seen(db, name) && Disjoint(db) && Paths([a]) == {a.path}
            && (forall x :: Lists(db[name], x) <==> x == a.path)
            && (forall x :: Owns(db[name], x) <==> x == a.path && !a.isDir)
  {
    hide WellFormed, Fits, Text, Owns, Lists;
    AllFit([a]);
    TextShort([a]);
    assert [a][0] == a && Paths([a]) == {a.path};
    forall x
      ensures (Lists(Text([a]), x) <==> x == a.path) && (Owns(Text([a]), x) <==> x == a.path && !a.isDir)
    {
      TextLists([a], x);
    }
  }

  /** A list cut inside its last path makes the package an owner of the path that
      is left, here the file of another one. */
  method TornOwner(a: Entry, e: Entry) returns (m: Manager)
    requires WellFormed(a) && WellFormed(e) && !a.isDir && !e.isDir && a.path < e.path
    ensures "x" in m.db && "y" in m.db && Seen(m.db, "x") && Seen(m.db, "y") && !Disjoint(m.db)
  {
    hide WellFormed, Text, Disjoint, Step, Paths, Prunes, Pruned, Loses, OtherLists, Lists, SeenShares, Line;
    hide Kept, StaysSingle, Single, CanInstall, Compatible, Feasible;
    var first, second := Pkg("x", [], [a]), Pkg("y", [], [e]);
    PathShort(e);
    var n: nat := |Line(e)| - |e.path| + |a.path|;
    var disk := k => if k == 1 then Disk.Torn(n) else Fine;
    PairValid(first, second, disk);
    m := new Manager(Pair(first, second, disk));
    NoConflict(map[], first);
    var ok := m.Install(m.world.byFile("first"), false, Plan({}, _ => 0));
    assert m.db == map["x" := Text([a])];
    CutTaken(a, e, n);
    ok := m.Install(m.world.byFile("second"), false, Plan({}, _ => 0));
    assert m.db == map["x" := Text([a]), "y" := Text([e])[..n]];
  }

  lemma CutTaken(a: Entry, e: Entry, n: nat)
    requires WellFormed(a) && WellFormed(e) && !a.isDir && !e.isDir && a.path < e.path
    requires n == |Line(e)| - |e.path| + |a.path|
    ensures n < |Text([e])| && !Conflict(map["x" := Text([a])], Pkg("y", [], [e]))
    ensures var db := map["x" := Text([a]), "y" := Text([e])[..n]];
            Seen(db, "x") && Seen(db, "y") && !Disjoint(db)
  {
    hide WellFormed, Line, Owns, Lists, Disjoint, Paths;
    var db, p := map["x" := Text([a])], Pkg("y", [], [e]);
    OneFile(a, "x");
    OneFile(e, "y");
    OneCut(a, e, n);
    var cut := [e.(path := a.path)];
    assert Clash(db["x"], cut) by { assert cut[0].path == a.path; }
    TornRecord(db, p, n);
    assert db["y" := Text([e])[..n]] == map["x" := Text([a]), "y" := Text([e])[..n]];
  }

  lemma OneCut(a: Entry, e: Entry, n: nat)
    requires WellFormed(a) && a.path < e.path && n == |Line(e)| - |e.path| + |a.path|
    ensures n < |Text([e])| && TornAt([e], n).cut == [e.(path := a.path)]
  {
    hide Line;
    PathShort(e);
    assert [e][..0] == [] && Text([]) == "";
    assert e.path[..|a.path|] == a.path;
  }

  /** Already on a first install a list cut inside its last path can name a file
      that is not there. */
  method TornLost(a: Entry, e: Entry) returns (m: Manager)
    requires WellFormed(a) && WellFormed(e) && a.path < e.path
    ensures Seen(m.db, "y") && Lists(m.db["y"], a.path) && a.path !in m.fs
  {
    hide WellFormed, Text, Disjoint, Step, Paths, Prunes, Pruned, Loses, OtherLists, Lists, SeenShares, Line;
    hide Kept, StaysSingle, Single, CanInstall, Compatible, Feasible;
    var p := Pkg("y", [], [e]);
    PathShort(e);
    var n: nat := |Line(e)| - |e.path| + |a.path|;
    var disk := k => Disk.Torn(n);
    PairValid(p, p, disk);
    m := new Manager(Pair(p, p, disk));
    NoConflict(map[], p);
    NothingPruned(m.world, p);
    CutNamed(a, e, n);
    var ok := m.Install(m.world.byFile("first"), false, Plan({}, _ => 0));
    assert m.db == map["y" := Text([e])[..n]];
  }

  lemma CutNamed(a: Entry, e: Entry, n: nat)
    requires WellFormed(a) && WellFormed(e) && a.path < e.path && n == |Line(e)| - |e.path| + |a.path|
    ensures n < |Text([e])| && Seen(map["y" := Text([e])[..n]], "y")
    ensures Lists(Text([e])[..n], a.path) && a.path !in Paths([e])
  {
    hide WellFormed, Line, Lists, Text;
    OneFile(e, "y");
    OneCut(a, e, n);
    TornLists([e], n, a.path);
    assert TornAt([e], n).cut[0].path == a.path;
  }

  /** A forced reinstall that prunes a file and then cannot write its record: the
      old record still lists the file. */
  method LostFile(a: Entry) returns (m: Manager)
    requires WellFormed(a)
    ensures Seen(m.db, "x") && Lists(m.db["x"], a.path) && a.path !in m.fs
  {
    hide WellFormed, Text, Step, Lists, Paths, SeenShares, Disjoint, Owns, Prunes, Pruned, Loses;
    hide Kept, StaysSingle, Single, CanInstall, Compatible, Feasible;
    var first, second := Pkg("x", [], [a]), Pkg("x", [], []);
    var disk := k => if k == 1 then RecordFails else Fine;
    PairValid(first, second, disk);
    m := new Manager(Pair(first, second, disk));
    NoConflict(map[], first);
    var ok := m.Install(m.world.byFile("first"), false, Plan({}, _ => 0));
    OneFile(a, "x");
    NothingPruned(m.world, first);
    PrunesIt(m.world, a);
    assert m.db == map["x" := Text([a])] && m.fs + Paths(second.files) == {a.path};
    PrunedFacts(m.world, m.db, second, {a.path});
    ok := m.Install(m.world.byFile("second"), true, Plan({}, _ => 0));
  }

  lemma NothingPruned(w: World, p: Pkg)
    ensures forall fs :: Pruned(w, map[], p, fs) == fs
  {
  }

  lemma PrunesIt(w: World, a: Entry)
    requires WellFormed(a) && forall x, fs :: w.unlinks(x, fs)
    ensures Paths([]) == {} && Prunes(w, map["x" := Text([a])], Pkg("x", [], []), {a.path})
  {
    hide WellFormed, Text, Owns;
    OneFile(a, "x");
    var db := map["x" := Text([a])];
    assert Lists(db["x"], a.path);
    var i :| 0 <= i < |ParseText(db["x"])| && ParseText(db["x"])[i].path == a.path;
    assert Deletable(w, db, [], "x", {a.path}, ParseText(db["x"])[i].path);
  }
}
