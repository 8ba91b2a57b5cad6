/** The installed-package database of apps/kpkg.c: a package's file list is
    printed one line per entry and parsed back. */
module PackageDb {
  import opened Buffers
  import opened Bytes
  import opened Characters
  import opened Numerals
  import opened Options

  const LIST_LIMIT: nat := 1024 * 1024
  const U32: nat := 0x1_0000_0000
  const U64: nat := 0x1_0000_0000_0000_0000
  const DIGEST: nat := 32
  const LINE_MAX: nat := 233

  /** A file of a package, and the same file in the database. */
  datatype Entry = Entry(path: string, mode: nat, uid: nat, gid: nat, size: nat, isDir: bool, sha: seq<Byte>)
  datatype DbFile = DbFile(mode: nat, uid: nat, gid: nat, size: nat, sha: string, isDir: bool, path: string)

  predicate Space(c: char) { IsBlank(c) || c == '\n' || c == '\r' }

  predicate Contains(p: string, q: string) {
    q <= p || (p != "" && Contains(p[1..], q))
  }

  lemma {:induction false} ContainsSomewhere(p: string, q: string)
    ensures Contains(p, q) <==> exists k :: 0 <= k <= |p| && q <= p[k..]
    decreases |p|
  {
    assert p[0..] == p;
    if p != "" {
      ContainsSomewhere(p[1..], q);
      assert forall k :: 1 <= k <= |p| ==> p[k..] == p[1..][k - 1..];
      if k :| 0 <= k <= |p[1..]| && q <= p[1..][k..] {
        assert p[1..][k..] == p[k + 1..];
      }
    }
  }

  predicate SafePath(p: string) {
    && 0 < |p| < 128 && p[0] == '/'
    && (forall i :: 0 <= i < |p| ==> !Space(p[i]))
    && !Contains(p, "/../") && !Contains(p, "//")
    && (|p| >= 3 ==> p[|p| - 3..] != "/..")
  }

  /** What pkg_load and the entry's field widths guarantee. */
  predicate WellFormed(e: Entry) {
    SafePath(e.path) && e.mode < U32 && e.uid < U32 && e.gid < U32 && e.size < U32 && |e.sha| == DIGEST
  }

  /** What the database format needs of an entry. */
  predicate Fits(e: Entry) {
    Word(e.path) && |e.path| < 128 && e.uid < U32 && e.gid < U32 && e.size < U32 && |e.sha| == DIGEST
  }

  lemma AllFit(es: seq<Entry>)
    requires forall i :: 0 <= i < |es| ==> WellFormed(es[i])
    ensures forall i :: 0 <= i < |es| ==> Fits(es[i])
  {
  }

  // ---- printing ---------------------------------------------------------

  function OctStr(mode: nat): string {
    [DigitChar(0), DigitChar(mode / 64 % 8), DigitChar(mode / 8 % 8), DigitChar(mode % 8)]
  }

  function HexDigit(d: nat): char
    requires d < 16
  {
    if d < 10 then DigitChar(d) else 'a' + (d - 10) as char
  }

  function HexStr(d: seq<Byte>): (s: string)
    ensures |s| == 2 * |d|
  {
    if d == [] then "" else HexStr(d[..|d| - 1]) + [HexDigit(d[|d| - 1] / 16), HexDigit(d[|d| - 1] % 16)]
  }

  function ShaStr(e: Entry): string { if e.isDir then "-" else HexStr(e.sha) }

  function Joined(words: seq<string>): string {
    if words == [] then "" else if |words| == 1 then words[0] else words[0] + (" " + Joined(words[1..]))
  }

  function Words(e: Entry): seq<string> {
    [OctStr(e.mode), Decimal(e.uid), Decimal(e.gid), Decimal(e.size), ShaStr(e), if e.isDir then "d" else "f", e.path]
  }

  function Line(e: Entry): string { Joined(Words(e)) }

  function Text(es: seq<Entry>): string {
    if es == [] then "" else Text(es[..|es| - 1]) + (Line(es[|es| - 1]) + "\n")
  }

  // ---- parsing ----------------------------------------------------------

  predicate IsDigitOf(c: char, base: nat) { IsDigit(c) && DigitValue(c) < base }

  /** The value of the leading digits below `base`. */
  function Number(s: string, base: nat, v: nat): nat
    requires base <= 10
  {
    if s != "" && IsDigitOf(s[0], base) then Number(s[1..], base, v * base + DigitValue(s[0])) else v
  }

  /** Anything but a digit of the base ends a number. */
  lemma NumberStops(c: char, rest: string, base: nat, v: nat)
    requires base <= 10 && !('0' as int <= c as int < '0' as int + base)
    ensures Number([c] + rest, base, v) == v
  {
  }

  function ParseOct(s: string): (r: nat)
    ensures r < 512
  {
    Number(s, 8, 0) % 512
  }

  function ParseDec(s: string): nat { Number(s, 10, 0) % U64 }

  function Blanks(s: string): (n: nat)
    ensures n <= |s| && (n < |s| ==> !IsBlank(s[n])) && forall i :: 0 <= i < n ==> IsBlank(s[i])
  {
    if s != "" && IsBlank(s[0]) then 1 + Blanks(s[1..]) else 0
  }

  function FieldLen(s: string): (n: nat)
    ensures n <= |s| && (n < |s| ==> IsBlank(s[n])) && forall i :: 0 <= i < n ==> !IsBlank(s[i])
  {
    if s != "" && !IsBlank(s[0]) then 1 + FieldLen(s[1..]) else 0
  }

  datatype Field = Field(text: string, rest: string)

  /** next_field with a buffer of `size` bytes. */
  function NextField(s: string, size: nat): Option<Field>
    requires size > 0
  {
    var t := s[Blanks(s)..];
    if t == "" then None else Some(Field(Cut(t[..FieldLen(t)], size), t[FieldLen(t)..]))
  }

  /** Consecutive fields, each into a buffer of its own size. */
  function TakeFields(s: string, sizes: seq<nat>): (r: Option<seq<string>>)
    requires forall i :: 0 <= i < |sizes| ==> sizes[i] > 0
    ensures r.Some? ==> |r.value| == |sizes|
  {
    if sizes == [] then Some([])
    else match NextField(s, sizes[0])
      case None => None
      case Some(f) =>
        match TakeFields(f.rest, sizes[1..])
        case None => None
        case Some(more) => Some([f.text] + more)
  }

  const SIZES: seq<nat> := [64, 64, 64, 64, 65, 64, 128]

  function FileOf(w: seq<string>): DbFile
    requires |w| == 7
  {
    DbFile(ParseOct(w[0]), ParseDec(w[1]) % U32, ParseDec(w[2]) % U32, ParseDec(w[3]), w[4],
      w[5] != "" && w[5][0] == 'd', w[6])
  }

  /** db_parse_line */
  function ParseLine(s: string): Option<DbFile> {
    match TakeFields(s, SIZES) case None => None case Some(w) => Some(FileOf(w))
  }

  function Trimmed(s: string): string {
    if s != "" && Space(s[|s| - 1]) then Trimmed(s[..|s| - 1]) else s
  }

  function LineLen(s: string): (n: nat)
    ensures n <= |s| && (n < |s| ==> s[n] == '\n') && forall i :: 0 <= i < n ==> s[i] != '\n'
  {
    if s != "" && s[0] != '\n' then 1 + LineLen(s[1..]) else 0
  }

  /** What one line adds to the list. */
  function LineFiles(raw: string): seq<DbFile> {
    var line := Trimmed(raw);
    if line == "" || line[0] == '#' then []
    else match ParseLine(line) case None => [] case Some(f) => [f]
  }

  function ParseText(s: string): seq<DbFile> {
    if s == "" then []
    else
      var n := LineLen(s);
      LineFiles(s[..n]) + if n < |s| then ParseText(s[n + 1..]) else []
  }

  /** db_files on a stored list: nothing is read beyond 1 MiB. */
  function DbFiles(text: string): Option<seq<DbFile>> {
    if |text| > LIST_LIMIT then None else Some(ParseText(text))
  }

  // ---- round trip -------------------------------------------------------

  /** An entry as the database gives it back. */
  function Stored(e: Entry): DbFile {
    DbFile(e.mode % 512, e.uid, e.gid, e.size, ShaStr(e), e.isDir, e.path)
  }

  function AllStored(es: seq<Entry>): (r: seq<DbFile>)
    ensures |r| == |es| && forall i :: 0 <= i < |es| ==> r[i] == Stored(es[i])
  {
    seq(|es|, i requires 0 <= i < |es| => Stored(es[i]))
  }

  predicate Word(s: string) { s != "" && forall i :: 0 <= i < |s| ==> !Space(s[i]) }

  predicate AllDigits(s: string, base: nat) { forall i :: 0 <= i < |s| ==> IsDigitOf(s[i], base) }

  lemma {:induction false} NumberOfConcat(a: string, b: string, base: nat, v: nat)
    requires base <= 10 && AllDigits(a, base)
    ensures Number(a + b, base, v) == Number(b, base, Number(a, base, v))
  {
    if a == "" {
      assert a + b == b;
    } else {
      assert (a + b)[1..] == a[1..] + b;
      NumberOfConcat(a[1..], b, base, v * base + DigitValue(a[0]));
    }
  }

  lemma NumberOfOne(d: nat, base: nat, v: nat)
    requires d < base <= 10
    ensures Number([DigitChar(d)], base, v) == v * base + d && IsDigitOf(DigitChar(d), base)
  {
    assert [DigitChar(d)][1..] == "";
  }

  lemma {:induction false} DecimalBack(n: nat)
    ensures Number(Decimal(n), 10, 0) == n && AllDigits(Decimal(n), 10)
  {
    NumberOfOne(n % 10, 10, n / 10);
    if n >= 10 {
      DecimalBack(n / 10);
      NumberOfConcat(Decimal(n / 10), [DigitChar(n % 10)], 10, 0);
    }
  }

  lemma DigitsAreWord(s: string, base: nat)
    requires s != "" && base <= 10 && AllDigits(s, base)
    ensures Word(s)
  {
  }

  lemma OctBack(mode: nat)
    ensures ParseOct(OctStr(mode)) == mode % 512 && AllDigits(OctStr(mode), 8)
  {
    hide DigitChar, Number;
    var a, b, c := mode / 64 % 8, mode / 8 % 8, mode % 8;
    NumberOfOne(0, 8, 0);
    NumberOfOne(a, 8, 0);
    NumberOfOne(b, 8, a);
    NumberOfOne(c, 8, a * 8 + b);
    NumberOfConcat([DigitChar(0)], [DigitChar(a)], 8, 0);
    NumberOfConcat([DigitChar(0)] + [DigitChar(a)], [DigitChar(b)], 8, 0);
    NumberOfConcat([DigitChar(0)] + [DigitChar(a)] + [DigitChar(b)], [DigitChar(c)], 8, 0);
    assert OctStr(mode) == [DigitChar(0)] + [DigitChar(a)] + [DigitChar(b)] + [DigitChar(c)];
    LowNineBits(mode);
  }

  lemma LowBits(z: nat, a: nat, b: nat, c: nat)
    requires a < 8 && b < 8 && c < 8
    ensures (512 * z + ((a * 8 + b) * 8 + c)) % 512 == (a * 8 + b) * 8 + c
  {
  }

  lemma LowNineBits(mode: nat)
    ensures mode % 512 == (mode / 64 % 8 * 8 + mode / 8 % 8) * 8 + mode % 8
  {
    var x := mode / 8;
    var y := x / 8;
    assert mode / 64 == y;
    LowBits(y / 8, y % 8, x % 8, mode % 8);
  }

  /** The value of a hexadecimal digit. */
  function HexValue(c: char): nat {
    if IsDigit(c) then DigitValue(c) else if 'a' <= c <= 'f' then c as int - 'a' as int + 10 else 0
  }

  /** The bytes that pairs of hexadecimal digits stand for. */
  function FromHex(s: string): seq<nat>
    decreases |s|
  {
    if |s| < 2 then [] else FromHex(s[..|s| - 2]) + [16 * HexValue(s[|s| - 2]) + HexValue(s[|s| - 1])]
  }

  lemma HexDigitBack(d: nat)
    requires d < 16
    ensures HexValue(HexDigit(d)) == d
  {
  }

  lemma NoHex()
    ensures FromHex("") == []
  {
  }

  lemma LastPair(s: string, x: char, y: char)
    ensures FromHex(s + [x, y]) == FromHex(s) + [16 * HexValue(x) + HexValue(y)]
  {
    hide HexValue;
    assert (s + [x, y])[..|s|] == s;
  }

  /** A digest can be read back from its text. */
  lemma {:induction false} HexBack(d: seq<Byte>)
    ensures FromHex(HexStr(d)) == d
    decreases |d|
  {
    hide HexValue, HexDigit, FromHex;
    assert FromHex("") == [] by { NoHex(); }
    if d != [] {
      var a, b := d[..|d| - 1], d[|d| - 1];
      HexBack(a);
      HexDigitBack(b / 16);
      HexDigitBack(b % 16);
      LastPair(HexStr(a), HexDigit(b / 16), HexDigit(b % 16));
      assert a + [b] == d;
    }
  }

  /** So the database entry of a file tells everything about it but the upper mode
      bits. */
  lemma StoredTells(e: Entry)
    requires Fits(e)
    ensures var f := Stored(e);
            && f.path == e.path && f.uid == e.uid && f.gid == e.gid && f.size == e.size && f.isDir == e.isDir
            && f.mode == e.mode % 512 && (!e.isDir ==> FromHex(f.sha) == e.sha)
  {
    hide FromHex, HexStr;
    HexBack(e.sha);
  }

  lemma HexIsWord(d: seq<Byte>)
    requires d != []
    ensures Word(HexStr(d))
    decreases |d|
  {
    if |d| > 1 {
      HexIsWord(d[..|d| - 1]);
    }
  }

  lemma {:induction false} BlanksOf(s: string, n: nat)
    requires n <= |s| && (forall i :: 0 <= i < n ==> IsBlank(s[i])) && (n < |s| ==> !IsBlank(s[n]))
    ensures Blanks(s) == n
  {
    if n > 0 {
      BlanksOf(s[1..], n - 1);
    }
  }

  lemma {:induction false} FieldLenOf(w: string, rest: string)
    requires (forall i :: 0 <= i < |w| ==> !IsBlank(w[i])) && (rest != "" ==> IsBlank(rest[0]))
    ensures FieldLen(w + rest) == |w|
  {
    if w != "" {
      assert (w + rest)[1..] == w[1..] + rest;
      FieldLenOf(w[1..], rest);
    }
  }

  /** A word is read back whole when it fits its buffer. */
  lemma FieldBack(gap: string, w: string, rest: string, size: nat)
    requires Word(w) && |w| < size && (gap == "" || gap == " ") && (rest != "" ==> IsBlank(rest[0]))
    ensures NextField(gap + (w + rest), size) == Some(Field(w, rest))
  {
    BlanksOf(gap + (w + rest), |gap|);
    assert (gap + (w + rest))[|gap|..] == w + rest;
    FieldLenOf(w, rest);
  }

  lemma {:induction false} FieldsBack(gap: string, ws: seq<string>, sizes: seq<nat>)
    requires |ws| == |sizes| && forall i :: 0 <= i < |ws| ==> Word(ws[i]) && |ws[i]| < sizes[i]
    requires gap == "" || gap == " "
    ensures TakeFields(gap + Joined(ws), sizes) == Some(ws)
    decreases |ws|
  {
    hide Word, NextField;
    if |ws| == 1 {
      FieldBack(gap, ws[0], "", sizes[0]);
      assert ws[0] + "" == ws[0];
      assert TakeFields("", sizes[1..]) == Some([]);
      assert [ws[0]] + [] == ws;
    } else if |ws| > 1 {
      FieldsBack(" ", ws[1..], sizes[1..]);
      FieldBack(gap, ws[0], " " + Joined(ws[1..]), sizes[0]);
      assert [ws[0]] + ws[1..] == ws;
    }
  }

  lemma {:induction false} DecimalLen(n: nat, k: nat, top: nat)
    requires 1 <= k && top == Power10(k) && n < top
    ensures |Decimal(n)| <= k
    decreases k
  {
    if n >= 10 {
      DecimalLen(n / 10, k - 1, top / 10);
    }
  }

  function Power10(k: nat): nat { if k == 0 then 1 else 10 * Power10(k - 1) }

  lemma Decimal32(n: nat)
    requires n < U32
    ensures |Decimal(n)| <= 10 && Word(Decimal(n)) && ParseDec(Decimal(n)) == n
  {
    assert Power10(10) == 1_0000_000_000;
    DecimalLen(n, 10, Power10(10));
    DecimalBack(n);
    DigitsAreWord(Decimal(n), 10);
  }

  lemma OctLen(mode: nat)
    ensures |OctStr(mode)| == 4
  {
  }

  /** Every word of a printed entry survives its buffer. */
  lemma WordsFit(e: Entry, i: nat)
    requires Fits(e) && i < 7
    ensures Word(Words(e)[i]) && |Words(e)[i]| < SIZES[i]
    ensures |Words(e)[0]| == 4 && |Words(e)[4]| <= 64 && |Words(e)[5]| == 1
    ensures forall j :: 1 <= j <= 3 ==> |Words(e)[j]| <= 10
  {
    hide OctStr, Decimal, HexStr, AllDigits, Contains, ParseOct, ParseDec;
    OctBack(e.mode);
    OctLen(e.mode);
    DigitsAreWord(OctStr(e.mode), 8);
    Decimal32(e.uid);
    Decimal32(e.gid);
    Decimal32(e.size);
    HexIsWord(e.sha);
  }

  lemma WordsBack(e: Entry)
    requires Fits(e)
    ensures TakeFields(Line(e), SIZES) == Some(Words(e))
  {
    hide Fits, Word, Words, TakeFields;
    WordCount(e);
    forall i | 0 <= i < 7
      ensures Word(Words(e)[i]) && |Words(e)[i]| < SIZES[i]
    {
      WordsFit(e, i);
    }
    FieldsBack("", Words(e), SIZES);
    assert "" + Line(e) == Line(e);
  }

  lemma WordCount(e: Entry)
    ensures |Words(e)| == 7
  {
  }

  lemma FileBack(e: Entry)
    requires Fits(e)
    ensures FileOf(Words(e)) == Stored(e)
  {
    hide OctStr, Decimal, ParseOct, ParseDec, AllDigits, SafePath;
    OctBack(e.mode);
    Decimal32(e.uid);
    Decimal32(e.gid);
    Decimal32(e.size);
  }

  lemma LineBack(e: Entry)
    requires Fits(e)
    ensures ParseLine(Line(e)) == Some(Stored(e))
  {
    hide Words, FileOf, TakeFields, Fits;
    WordsBack(e);
    FileBack(e);
  }

  lemma {:induction false} JoinedChars(ws: seq<string>)
    requires ws != [] && forall i :: 0 <= i < |ws| ==> Word(ws[i])
    ensures var s := Joined(ws);
            s != "" && ws[0] != "" && s[0] == ws[0][0] && '\n' !in s && !Space(s[|s| - 1])
    decreases |ws|
  {
    if |ws| > 1 {
      JoinedChars(ws[1..]);
    }
  }

  lemma LineChars(e: Entry)
    requires Fits(e)
    ensures var s := Line(e);
            s != "" && s[0] == '0' && '\n' !in s && !Space(s[|s| - 1])
  {
    hide Fits, Word, Words;
    WordCount(e);
    forall i | 0 <= i < 7
      ensures Word(Words(e)[i])
    {
      WordsFit(e, i);
    }
    JoinedChars(Words(e));
    FirstWord(e);
  }

  lemma FirstWord(e: Entry)
    ensures Words(e)[0][0] == '0'
  {
  }

  lemma {:induction false} LineLenOf(a: string, b: string)
    requires '\n' !in a
    ensures LineLen(a + ("\n" + b)) == |a|
  {
    if a != "" {
      assert (a + ("\n" + b))[1..] == a[1..] + ("\n" + b);
      LineLenOf(a[1..], b);
    }
  }

  lemma OneLine(a: string, b: string)
    requires '\n' !in a
    ensures ParseText(a + ("\n" + b)) == LineFiles(a) + ParseText(b)
  {
    LineLenOf(a, b);
    var s := a + ("\n" + b);
    assert s[..|a|] == a && s[|a| + 1..] == b;
  }

  lemma LineFilesBack(e: Entry)
    requires Fits(e)
    ensures LineFiles(Line(e)) == [Stored(e)]
  {
    hide Fits, Line, ParseLine, Stored;
    LineChars(e);
    LineBack(e);
  }

  /** Reading a printed list followed by anything. */
  lemma {:induction false} TextThen(es: seq<Entry>, b: string)
    requires forall i :: 0 <= i < |es| ==> Fits(es[i])
    ensures ParseText(Text(es) + b) == AllStored(es) + ParseText(b)
    decreases |es|
  {
    hide Fits, Line, ParseText, LineFiles, Stored, AllStored, Text;
    LastStored(es);
    if es == [] {
      assert "" + b == b && [] + ParseText(b) == ParseText(b);
    } else {
      var pre, e := es[..|es| - 1], es[|es| - 1];
      TextThen(pre, Line(e) + ("\n" + b));
      assert Text(pre) + (Line(e) + "\n") + b == Text(pre) + (Line(e) + ("\n" + b));
      LineChars(e);
      OneLine(Line(e), b);
      LineFilesBack(e);
      assert AllStored(pre) + ([Stored(e)] + ParseText(b)) == AllStored(es) + ParseText(b);
    }
  }

  lemma LastStored(es: seq<Entry>)
    ensures es == [] ==> Text(es) == "" && AllStored(es) == []
    ensures es != [] ==>
      var pre, e := es[..|es| - 1], es[|es| - 1];
      Text(es) == Text(pre) + (Line(e) + "\n") && AllStored(es) == AllStored(pre) + [Stored(e)]
  {
    hide Line, Stored;
  }

  lemma NothingToParse()
    ensures ParseText("") == []
  {
  }

  /** The round trip holds exactly while the list can be read at all. */
  lemma ReadBack(es: seq<Entry>)
    requires forall i :: 0 <= i < |es| ==> Fits(es[i])
    ensures DbFiles(Text(es)) == Some(AllStored(es)) <==> |Text(es)| <= LIST_LIMIT
  {
    hide Fits, AllStored, ParseText, Text;
    TextThen(es, "");
    assert Text(es) + "" == Text(es);
    NothingToParse();
    assert AllStored(es) + [] == AllStored(es);
  }

  lemma LineShort(e: Entry)
    requires Fits(e)
    ensures |Line(e)| + 1 <= LINE_MAX
  {
    hide OctStr, Decimal, HexStr, Contains, Space;
    WordsFit(e, 0);
    var w := Words(e);
    assert w[1..][0] == w[1] && w[1..][1..][0] == w[2] && w[1..][1..][1..] == w[3..];
    assert Joined(w[6..]) == w[6];
    assert |Joined(w[5..])| == |w[5]| + 1 + |w[6]| by { assert w[5..][1..] == w[6..]; }
    assert |Joined(w[4..])| == |w[4]| + 1 + |Joined(w[5..])| by { assert w[4..][1..] == w[5..]; }
    assert |Joined(w[3..])| == |w[3]| + 1 + |Joined(w[4..])| by { assert w[3..][1..] == w[4..]; }
    assert |Joined(w[2..])| == |w[2]| + 1 + |Joined(w[3..])| by { assert w[2..][1..] == w[3..]; }
    assert |Joined(w[1..])| == |w[1]| + 1 + |Joined(w[2..])| by { assert w[1..][1..] == w[2..]; }
  }

  /** 4500 entries always fit the limit. */
  lemma {:induction false} TextShort(es: seq<Entry>)
    requires forall i :: 0 <= i < |es| ==> Fits(es[i])
    ensures |Text(es)| <= LINE_MAX * |es|
    ensures |es| <= 4500 ==> |Text(es)| <= LIST_LIMIT
    decreases |es|
  {
    hide Fits, Line;
    if es != [] {
      TextShort(es[..|es| - 1]);
      LineShort(es[|es| - 1]);
    }
  }

  // ---- a list cut short -------------------------------------------------

  /** What the first bytes of a printed list hold: so many whole entries, and
      perhaps one whose path was cut. */
  datatype Torn = Torn(whole: nat, cut: seq<Entry>)

  function TornAt(es: seq<Entry>, n: nat): (t: Torn)
    ensures t.whole <= |es| && |t.cut| <= 1
  {
    if es == [] then Torn(0, [])
    else
      var pre, e := es[..|es| - 1], es[|es| - 1];
      if n <= |Text(pre)| then TornAt(pre, n)
      else
        var m, head: int := n - |Text(pre)|, |Line(e)| - |e.path|;
        if m >= |Line(e)| then Torn(|es|, [])
        else if head < m then PathShort(e); Torn(|es| - 1, [e.(path := e.path[..m - head])])
        else Torn(|es| - 1, [])
  }

  function TornEntries(es: seq<Entry>, n: nat): seq<Entry> {
    es[..TornAt(es, n).whole] + TornAt(es, n).cut
  }

  lemma {:induction false} TrimmedPrefix(s: string)
    ensures Trimmed(s) <= s && (s != "" && !Space(s[|s| - 1]) ==> Trimmed(s) == s)
  {
    if s != "" && Space(s[|s| - 1]) { TrimmedPrefix(s[..|s| - 1]); }
  }

  lemma NoField(s: string, sizes: seq<nat>)
    requires sizes != [] && (forall i :: 0 <= i < |sizes| ==> sizes[i] > 0) && (s == "" || s == " ")
    ensures TakeFields(s, sizes) == None
  {
    BlanksOf(s, |s|);
  }

  lemma AfterWord(gap: string, w: string, rest: string, sizes: seq<nat>)
    requires sizes != [] && (forall i :: 0 <= i < |sizes| ==> sizes[i] > 0)
    requires Word(w) && |w| < sizes[0] && (gap == "" || gap == " ") && (rest != "" ==> IsBlank(rest[0]))
    requires TakeFields(rest, sizes[1..]) == None
    ensures TakeFields(gap + (w + rest), sizes) == None
  {
    FieldBack(gap, w, rest, sizes[0]);
  }

  /** Fewer words than fields. */
  lemma {:induction false} TooShort(gap: string, ws: seq<string>, sizes: seq<nat>, m: nat)
    requires 1 <= |ws| == |sizes| && forall i :: 0 <= i < |ws| ==> Word(ws[i]) && |ws[i]| < sizes[i]
    requires (gap == "" || gap == " ") && m <= |gap + Joined(ws)| - |ws[|ws| - 1]|
    ensures TakeFields((gap + Joined(ws))[..m], sizes) == None
    decreases |ws|
  {
    hide TakeFields, Space;
    var s := (gap + Joined(ws))[..m];
    if m <= |gap| {
      assert s == gap[..m];
      NoField(s, sizes);
    } else {
      assert |ws| > 1;
      var rest, k: int := " " + Joined(ws[1..]), m - |gap| - |ws[0]|;
      assert Joined(ws) == ws[0] + rest;
      if k <= 0 {
        var w := ws[0][..m - |gap|];
        assert s == gap + (w + "");
        NoField("", sizes[1..]);
        WordPrefix(ws[0], |w|);
        AfterWord(gap, w, "", sizes);
      } else {
        assert s == gap + (ws[0] + rest[..k]);
        TooShort(" ", ws[1..], sizes[1..], k);
        AfterWord(gap, ws[0], rest[..k], sizes);
      }
    }
  }

  lemma WordPrefix(w: string, n: nat)
    requires Word(w) && 0 < n <= |w|
    ensures Word(w[..n])
  {
  }

  /** Cutting joined words inside the last one. */
  lemma {:induction false} JoinedLast(front: seq<string>, w: string, n: nat)
    requires n <= |w|
    ensures |w| <= |Joined(front + [w])|
    ensures Joined(front + [w])[..|Joined(front + [w])| - |w| + n] == Joined(front + [w[..n]])
    decreases |front|
  {
    if front == [] {
      assert front + [w] == [w] && front + [w[..n]] == [w[..n]];
    } else {
      JoinedLast(front[1..], w, n);
      JoinedFirst(front, w);
      JoinedFirst(front, w[..n]);
      CutInside(front[0], Joined(front[1..] + [w]), |Joined(front[1..] + [w])| - |w| + n);
    }
  }

  lemma JoinedFirst(front: seq<string>, w: string)
    requires front != []
    ensures Joined(front + [w]) == front[0] + (" " + Joined(front[1..] + [w]))
  {
    assert (front + [w])[1..] == front[1..] + [w];
  }

  lemma CutInside(a: string, b: string, k: nat)
    requires k <= |b|
    ensures (a + (" " + b))[..|a| + 1 + k] == a + (" " + b[..k])
  {
  }

  /** A line cut inside its path lists the rest of the path ... */
  lemma CutLine(e: Entry, m: nat)
    requires Fits(e) && |Line(e)| - |e.path| < m <= |Line(e)|
    ensures var n := m - (|Line(e)| - |e.path|);
            LineFiles(Line(e)[..m]) == [Stored(e.(path := e.path[..n]))]
  {
    hide Words, LineFiles, Word, Joined, Stored;
    var n := m - (|Line(e)| - |e.path|);
    var e' := e.(path := e.path[..n]);
    PathIsLast(e);
    PathIsLast(e');
    JoinedLast(Words(e)[..6], e.path, n);
    WordPrefix(e.path, n);
    LineFilesBack(e');
  }

  /** ... and one cut before it lists nothing. */
  lemma LostLine(e: Entry, m: nat)
    requires Fits(e) && m <= |Line(e)| - |e.path|
    ensures LineFiles(Line(e)[..m]) == []
  {
    hide Words, Fits, TakeFields, Word;
    var s := Line(e)[..m];
    TrimmedPrefix(s);
    var t := Trimmed(s);
    assert t == Line(e)[..|t|];
    WordCount(e);
    PathIsLast(e);
    forall i | 0 <= i < 7
      ensures Word(Words(e)[i]) && |Words(e)[i]| < SIZES[i]
    {
      WordsFit(e, i);
    }
    TooShort("", Words(e), SIZES, |t|);
    assert "" + Joined(Words(e)) == Line(e);
  }

  lemma PathIsLast(e: Entry)
    ensures |Words(e)| == 7 && Words(e) == Words(e)[..6] + [e.path]
    ensures forall p :: Words(e.(path := p))[..6] == Words(e)[..6]
  {
  }

  /** A text without a line end. */
  lemma LastLine(s: string)
    requires '\n' !in s
    ensures ParseText(s) == LineFiles(s)
  {
    if s != "" {
      assert LineLen(s) == |s|;
      assert s[..|s|] == s;
    }
  }

  /** The first bytes of a printed list, read back. */
  lemma {:induction false} TornBack(es: seq<Entry>, n: nat)
    requires (forall i :: 0 <= i < |es| ==> Fits(es[i])) && n <= |Text(es)|
    ensures ParseText(Text(es)[..n]) == AllStored(TornEntries(es, n))
    decreases |es|
  {
    hide Fits, Line, ParseText, AllStored, TornEntries;
    if es == [] {
      NothingTorn(n);
    } else {
      var pre, e := es[..|es| - 1], es[|es| - 1];
      if n <= |Text(pre)| {
        TornBack(pre, n);
        assert Text(es)[..n] == Text(pre)[..n];
        EarlyTorn(es, n);
      } else {
        var m := n - |Text(pre)|;
        var s := (Line(e) + "\n")[..m];
        assert Text(es)[..n] == Text(pre) + s;
        TextThen(pre, s);
        TornLine(e, m);
        LastTorn(es, n);
      }
    }
  }

  lemma NothingTorn(n: nat)
    ensures Text([])[..0] == "" && ParseText("") == AllStored(TornEntries([], n))
  {
  }

  lemma EarlyTorn(es: seq<Entry>, n: nat)
    requires es != [] && n <= |Text(es[..|es| - 1])|
    ensures TornEntries(es, n) == TornEntries(es[..|es| - 1], n)
  {
    hide Line, Text;
  }

  lemma TornLine(e: Entry, m: nat)
    requires Fits(e) && 0 < m <= |Line(e)| + 1
    ensures ParseText((Line(e) + "\n")[..m]) ==
      if m >= |Line(e)| then [Stored(e)]
      else if |Line(e)| - |e.path| < m then [Stored(e.(path := e.path[..m - (|Line(e)| - |e.path|)]))]
      else []
  {
    hide Fits, Line, LineFiles, ParseText, Stored;
    LineChars(e);
    PathShort(e);
    HasPath(e);
    if m == |Line(e)| + 1 {
      assert (Line(e) + "\n")[..m] == Line(e) + ("\n" + "");
      OneLine(Line(e), "");
      NothingToParse();
      LineFilesBack(e);
    } else {
      var s := Line(e)[..m];
      assert (Line(e) + "\n")[..m] == s;
      LastLine(s);
      if |Line(e)| - |e.path| < m {
        CutLine(e, m);
        assert m == |Line(e)| ==> e.path[..|e.path|] == e.path;
      } else {
        LostLine(e, m);
      }
    }
  }

  lemma HasPath(e: Entry)
    requires Fits(e)
    ensures e.path != ""
  {
  }

  lemma PathShort(e: Entry)
    ensures 0 <= |e.path| <= |Line(e)|
  {
    PathIsLast(e);
    JoinedLast(Words(e)[..6], e.path, 0);
  }

  lemma LastTorn(es: seq<Entry>, n: nat)
    requires es != [] && |Text(es[..|es| - 1])| < n
    ensures var pre, e, m := es[..|es| - 1], es[|es| - 1], n - |Text(es[..|es| - 1])|;
            AllStored(TornEntries(es, n)) == AllStored(pre) +
              if m >= |Line(e)| then [Stored(e)]
              else if |Line(e)| - |e.path| < m then [Stored(e.(path := e.path[..m - (|Line(e)| - |e.path|)]))]
              else []
  {
    hide Line, Stored, Text;
    PathShort(es[|es| - 1]);
  }

  // ---- the loops --------------------------------------------------------

  /** The file list part of db_write. */
  method PrintList(es: seq<Entry>) returns (r: Option<string>)
    requires forall i :: 0 <= i < |es| ==> WellFormed(es[i])
    ensures r == Some(Text(es))
  {
    hide WellFormed, Fits, Line;
    AllFit(es);
    var cap := |es| * 256 + 128;
    var text, i := "", 0;
    while i < |es|
      invariant 0 <= i <= |es| && text == Text(es[..i]) && |text| <= 256 * i
    {
      LineShort(es[i]);
      assert es[..i + 1][..i] == es[..i];
      text := text + (Line(es[i]) + "\n");
      if |text| >= cap {
        return None;
      }
      i := i + 1;
    }
    assert es[..i] == es;
    return Some(text);
  }

  lemma ParseStep(text: string, p: nat, n: nat)
    requires p < |text| && p <= n <= |text| && n - p == LineLen(text[p..])
    ensures ParseText(text[p..]) == LineFiles(text[p..n]) + ParseText(text[if n < |text| then n + 1 else n..])
  {
    hide LineFiles, LineLen, ParseText;
    var t, k := text[p..], n - p;
    ParseFirst(t);
    assert t[..k] == text[p..n] && t[k..] == text[n..];
    if n < |text| {
      assert t[k + 1..] == text[n + 1..];
    }
  }

  lemma ParseFirst(t: string)
    requires t != ""
    ensures var k := LineLen(t);
            ParseText(t) == LineFiles(t[..k]) + ParseText(t[if k < |t| then k + 1 else k..])
  {
    hide LineFiles, LineLen;
    if LineLen(t) == |t| {
      assert t[|t|..] == "";
    }
  }

  /** db_files: the loop over the lines of a stored list. */
  method ReadList(text: string) returns (r: Option<seq<DbFile>>)
    ensures r == DbFiles(text)
  {
    hide LineFiles, ParseText, LineLen;
    if |text| > LIST_LIMIT {
      return None;
    }
    var list: seq<DbFile>, p := [], 0;
    assert text[p..] == text;
    while p < |text|
      invariant 0 <= p <= |text| && list + ParseText(text[p..]) == ParseText(text)
    {
      var n := EndOfLine(text, p);
      ParseStep(text, p, n);
      list := list + LineFiles(text[p..n]);
      p := if n < |text| then n + 1 else n;
    }
    NothingToParse();
    assert text[p..] == "" && list + [] == list;
    return Some(list);
  }

  method EndOfLine(text: string, p: nat) returns (n: nat)
    requires p <= |text|
    ensures p <= n <= |text| && n - p == LineLen(text[p..])
  {
    n := p;
    while n < |text| && text[n] != '\n'
      invariant p <= n <= |text| && n - p + LineLen(text[n..]) == LineLen(text[p..])
    {
      assert text[n..][1..] == text[n + 1..];
      n := n + 1;
    }
  }
}
