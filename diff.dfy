/** Repository.parseDiff: the unified-diff text printed for a list of hunks.
    A hunk (L1, N1, L2, N2) removes N1 lines of the first file starting at
    line L1 and inserts N2 lines of the second file starting at line L2. */
module Diffs {
  import opened Objects

  datatype Hunk = Hunk(l1: nat, n1: nat, l2: nat, n2: nat)

  /** The two line sequences hold every line a hunk refers to. */
  ghost predicate HunksInRange(hunks: seq<Hunk>, lines1: seq<string>, lines2: seq<string>)
  {
    forall h :: h in hunks ==> h.l1 + h.n1 <= |lines1| && h.l2 + h.n2 <= |lines2|
  }

  // ---------------------------------------------------------------------
  // Decimal numerals

  predicate IsDigit(c: char)
  {
    '0' <= c <= '9'
  }

  ghost predicate AllDigits(s: string)
  {
    forall i :: 0 <= i < |s| ==> IsDigit(s[i])
  }

  function Digit(d: nat): (c: char)
    requires d < 10
    ensures IsDigit(c) && (c as int) - ('0' as int) == d
  {
    ('0' as int + d) as char
  }

  /** The decimal numeral of n, as Java prints an int. */
  function NatToString(n: nat): (s: string)
    ensures |s| > 0 && AllDigits(s)
  {
    if n < 10 then [Digit(n)] else NatToString(n / 10) + [Digit(n % 10)]
  }

  /** The value of a numeral. */
  function ParseNat(s: string): nat
    requires AllDigits(s)
  {
    if s == [] then 0 else ParseNat(s[..|s| - 1]) * 10 + ((s[|s| - 1] as int) - ('0' as int))
  }

  lemma {:induction false} ParseNatToString(n: nat)
    ensures ParseNat(NatToString(n)) == n
  {
    if n >= 10 {
      var s := NatToString(n);
      assert s[..|s| - 1] == NatToString(n / 10);
      ParseNatToString(n / 10);
    }
  }

  /** The length of the run of digits that starts s. */
  function DigitRun(s: string): (k: nat)
    ensures k <= |s| && AllDigits(s[..k]) && (k < |s| ==> !IsDigit(s[k]))
  {
    if s == [] || !IsDigit(s[0]) then 0
    else
      var k := 1 + DigitRun(s[1..]);
      assert s[..k] == [s[0]] + s[1..][..k - 1];
      k
  }

  lemma {:induction false} DigitRunOf(d: string, t: string)
    requires AllDigits(d) && (t == [] || !IsDigit(t[0]))
    ensures DigitRun(d + t) == |d|
  {
    if d != [] {
      assert (d + t)[1..] == d[1..] + t;
      DigitRunOf(d[1..], t);
    }
  }

  // ---------------------------------------------------------------------
  // Hunk headers

  /** The numbers a header shows: a start is moved one up, to a one-based
      line number, only when its count is nonzero. */
  datatype HeaderFields = HeaderFields(start1: nat, count1: nat, start2: nat, count2: nat)

  function Start(l: nat, n: nat): nat
  {
    if n != 0 then l + 1 else l
  }

  function Fields(h: Hunk): HeaderFields
  {
    HeaderFields(Start(h.l1, h.n1), h.n1, Start(h.l2, h.n2), h.n2)
  }

  /** "start" or "start,count"; the count is left out exactly when it is 1. */
  function FormatRange(start: nat, count: nat): string
  {
    NatToString(start) + (if count == 1 then "" else "," + NatToString(count))
  }

  function HeaderText(f: HeaderFields): string
  {
    "@@ -" + FormatRange(f.start1, f.count1) + " +" + FormatRange(f.start2, f.count2) + " @@\n"
  }

  function Header(h: Hunk): string
  {
    HeaderText(Fields(h))
  }

  datatype Range = Range(start: nat, count: nat, rest: string)

  /** Reads "start" or "start,count" off the front of s; a missing count
      means 1. */
  function ParseRange(s: string): Option<Range>
  {
    var k := DigitRun(s);
    if k == 0 then None
    else
      var start := ParseNat(s[..k]);
      var r := s[k..];
      if r != [] && r[0] == ',' then
        var k2 := DigitRun(r[1..]);
        if k2 == 0 then None else Some(Range(start, ParseNat(r[1..][..k2]), r[1..][k2..]))
      else Some(Range(start, 1, r))
  }

  /** Reads a header line back. */
  function ParseHeader(s: string): Option<HeaderFields>
  {
    if |s| < 4 || s[..4] != "@@ -" then None else ParseFirst(s[4..])
  }

  function ParseFirst(r: string): Option<HeaderFields>
  {
    match ParseRange(r)
    case None => None
    case Some(a) => ParseSecond(a.start, a.count, a.rest)
  }

  function ParseSecond(start1: nat, count1: nat, r: string): Option<HeaderFields>
  {
    if |r| < 2 || r[..2] != " +" then None
    else match ParseRange(r[2..])
      case None => None
      case Some(b) => if b.rest != " @@\n" then None else Some(HeaderFields(start1, count1, b.start, b.count))
  }

  lemma ParseRangeFormat(start: nat, count: nat, t: string)
    requires t != [] && !IsDigit(t[0]) && t[0] != ','
    ensures ParseRange(FormatRange(start, count) + t) == Some(Range(start, count, t))
  {
    var d := NatToString(start);
    var s := FormatRange(start, count) + t;
    ParseNatToString(start);
    if count == 1 {
      assert s == d + t;
      DigitRunOf(d, t);
      assert s[..|d|] == d;
    } else {
      var e := NatToString(count);
      var u := "," + e + t;
      assert s == d + u;
      DigitRunOf(d, u);
      assert s[..|d|] == d && s[|d|..] == u;
      assert u[1..] == e + t;
      DigitRunOf(e, t);
      ParseNatToString(count);
      assert u[1..][..|e|] == e && u[1..][|e|..] == t;
    }
  }

  /** ParseHeader on a header line whose two ranges parse. */
  lemma ParseHeaderOf(x: string, y: string, f: HeaderFields)
    requires ParseRange(x + (" +" + y + " @@\n")) == Some(Range(f.start1, f.count1, " +" + y + " @@\n"))
    requires ParseRange(y + " @@\n") == Some(Range(f.start2, f.count2, " @@\n"))
    ensures ParseHeader("@@ -" + x + " +" + y + " @@\n") == Some(f)
  {
    var t := " +" + y + " @@\n";
    var s := "@@ -" + x + " +" + y + " @@\n";
    assert s == "@@ -" + (x + t);
    assert s[..4] == "@@ -" && s[4..] == x + t;
    assert ParseHeader(s) == ParseFirst(x + t);
    ParseSecondOf(f, y);
  }

  lemma ParseSecondOf(f: HeaderFields, y: string)
    requires ParseRange(y + " @@\n") == Some(Range(f.start2, f.count2, " @@\n"))
    ensures ParseSecond(f.start1, f.count1, " +" + y + " @@\n") == Some(f)
  {
    var t := " +" + y + " @@\n";
    assert t == " +" + (y + " @@\n");
    assert t[..2] == " +" && t[2..] == y + " @@\n";
  }

  /** A header reads back as the numbers it was made from. */
  lemma HeaderRoundTrip(h: Hunk)
    ensures ParseHeader(Header(h)) == Some(Fields(h))
  {
    var f := Fields(h);
    var x, y := FormatRange(f.start1, f.count1), FormatRange(f.start2, f.count2);
    ParseRangeFormat(f.start1, f.count1, " +" + y + " @@\n");
    ParseRangeFormat(f.start2, f.count2, " @@\n");
    ParseHeaderOf(x, y, f);
  }

  // ---------------------------------------------------------------------
  // Hunk bodies

  /** The lines ls[lo..hi], each with the prefix and a newline. */
  function Block(prefix: string, ls: seq<string>, lo: nat, hi: nat): string
    requires lo <= hi <= |ls|
    decreases hi
  {
    if lo == hi then "" else Block(prefix, ls, lo, hi - 1) + prefix + ls[hi - 1] + "\n"
  }

  /** The lines of a hunk: the removed ones, then the inserted ones. */
  function Body(h: Hunk, lines1: seq<string>, lines2: seq<string>): string
    requires h.l1 + h.n1 <= |lines1| && h.l2 + h.n2 <= |lines2|
  {
    Block("-", lines1, h.l1, h.l1 + h.n1) + Block("+", lines2, h.l2, h.l2 + h.n2)
  }

  function HunkText(h: Hunk, lines1: seq<string>, lines2: seq<string>): string
    requires h.l1 + h.n1 <= |lines1| && h.l2 + h.n2 <= |lines2|
  {
    Header(h) + Body(h, lines1, lines2)
  }

  /** The whole output: every hunk's header followed by its lines. */
  function Render(hunks: seq<Hunk>, lines1: seq<string>, lines2: seq<string>): string
    requires HunksInRange(hunks, lines1, lines2)
  {
    if hunks == [] then ""
    else Render(hunks[..|hunks| - 1], lines1, lines2) + HunkText(hunks[|hunks| - 1], lines1, lines2)
  }

  /** The body lines of a hunk as a list, the reference for Block. */
  function BodyLines(h: Hunk, lines1: seq<string>, lines2: seq<string>): (r: seq<string>)
    requires h.l1 + h.n1 <= |lines1| && h.l2 + h.n2 <= |lines2|
    ensures |r| == h.n1 + h.n2
    ensures forall j :: 0 <= j < h.n1 ==> r[j] == "-" + lines1[h.l1 + j]
    ensures forall j :: h.n1 <= j < |r| ==> r[j] == "+" + lines2[h.l2 + j - h.n1]
  {
    Prefixed("-", lines1, h.l1, h.l1 + h.n1) + Prefixed("+", lines2, h.l2, h.l2 + h.n2)
  }

  /** Lines joined, each ending in a newline. */
  function Join(ls: seq<string>): string
  {
    if ls == [] then "" else Join(ls[..|ls| - 1]) + ls[|ls| - 1] + "\n"
  }

  lemma {:induction false} JoinAppend(a: seq<string>, b: seq<string>)
    ensures Join(a + b) == Join(a) + Join(b)
  {
    if b != [] {
      assert (a + b)[..|a + b| - 1] == a + b[..|b| - 1];
      JoinAppend(a, b[..|b| - 1]);
    } else {
      assert a + b == a;
    }
  }

  /** The lines ls[lo..hi], each with the prefix. */
  function Prefixed(prefix: string, ls: seq<string>, lo: nat, hi: nat): (r: seq<string>)
    requires lo <= hi <= |ls|
    ensures |r| == hi - lo && forall j :: 0 <= j < |r| ==> r[j] == prefix + ls[lo + j]
  {
    seq(hi - lo, (j: int) requires 0 <= j < hi - lo => prefix + ls[lo + j])
  }

  lemma {:induction false} BlockIsJoin(prefix: string, ls: seq<string>, lo: nat, hi: nat)
    requires lo <= hi <= |ls|
    ensures Block(prefix, ls, lo, hi) == Join(Prefixed(prefix, ls, lo, hi))
    decreases hi
  {
    var q := Prefixed(prefix, ls, lo, hi);
    if lo < hi {
      BlockIsJoin(prefix, ls, lo, hi - 1);
      assert q[..|q| - 1] == Prefixed(prefix, ls, lo, hi - 1);
    }
  }

  /** parseDiff prints each hunk as its header followed by its n1 "-" lines
      and then its n2 "+" lines. */
  lemma HunkTextLines(h: Hunk, lines1: seq<string>, lines2: seq<string>)
    requires h.l1 + h.n1 <= |lines1| && h.l2 + h.n2 <= |lines2|
    ensures HunkText(h, lines1, lines2) == Header(h) + Join(BodyLines(h, lines1, lines2))
  {
    HunkBodyLines(h, lines1, lines2);
  }

  lemma HunkBodyLines(h: Hunk, lines1: seq<string>, lines2: seq<string>)
    requires h.l1 + h.n1 <= |lines1| && h.l2 + h.n2 <= |lines2|
    ensures Body(h, lines1, lines2) == Join(BodyLines(h, lines1, lines2))
  {
    var minus := Prefixed("-", lines1, h.l1, h.l1 + h.n1);
    var plus := Prefixed("+", lines2, h.l2, h.l2 + h.n2);
    BlockIsJoin("-", lines1, h.l1, h.l1 + h.n1);
    BlockIsJoin("+", lines2, h.l2, h.l2 + h.n2);
    JoinAppend(minus, plus);
  }

  /** The header part of parseDiff's loop body: move each start up when
      its count is nonzero and drop each ",N" suffix when N is 1. */
  method HunkHeader(h: Hunk) returns (header: string)
    ensures header == Header(h)
  {
    var start1 := h.l1;
    var start2 := h.l2;
    if h.n1 != 0 {
      start1 := start1 + 1;
    }
    if h.n2 != 0 {
      start2 := start2 + 1;
    }
    var fix1 := "," + NatToString(h.n1);
    var fix2 := "," + NatToString(h.n2);
    if h.n1 == 1 {
      fix1 := "";
    }
    if h.n2 == 1 {
      fix2 := "";
    }
    var range1 := NatToString(start1) + fix1;
    var range2 := NatToString(start2) + fix2;
    assert range1 == FormatRange(Fields(h).start1, Fields(h).count1);
    assert range2 == FormatRange(Fields(h).start2, Fields(h).count2);
    header := "@@ -" + range1 + " +" + range2 + " @@\n";
  }

  /** One of parseDiff's inner loops: append ls[lo..hi], each line with
      the prefix and a newline. */
  method AppendBlock(lines: string, prefix: string, ls: seq<string>, lo: nat, hi: nat)
    returns (out: string)
    requires lo <= hi <= |ls|
    ensures out == lines + Block(prefix, ls, lo, hi)
  {
    out := lines;
    var j := lo;
    while j < hi
      invariant lo <= j <= hi
      invariant out == lines + Block(prefix, ls, lo, j)
    {
      out := out + prefix + ls[j] + "\n";
      j := j + 1;
    }
  }

  /** Repository.parseDiff with the Diff result given as a list of hunks and
      the Diff's two line sequences; the result is the text it prints. */
  method ParseDiff(hunks: seq<Hunk>, lines1: seq<string>, lines2: seq<string>) returns (output: string)
    requires HunksInRange(hunks, lines1, lines2)
    ensures output == Render(hunks, lines1, lines2)
  {
    output := "";
    var i := 0;
    while i < |hunks|
      invariant 0 <= i <= |hunks|
      invariant output == Render(hunks[..i], lines1, lines2)
    {
      var h := hunks[i];
      assert h in hunks;
      var minus := AppendBlock("", "-", lines1, h.l1, h.l1 + h.n1);
      var plus := AppendBlock("", "+", lines2, h.l2, h.l2 + h.n2);
      assert minus == Block("-", lines1, h.l1, h.l1 + h.n1);
      assert plus == Block("+", lines2, h.l2, h.l2 + h.n2);
      var lines := minus + plus;
      var header := HunkHeader(h);
      assert header + lines == HunkText(h, lines1, lines2);
      assert hunks[..i + 1][..i] == hunks[..i];
      assert Render(hunks[..i + 1], lines1, lines2) == output + HunkText(h, lines1, lines2);
      output := output + (header + lines);
      i := i + 1;
    }
    assert hunks[..i] == hunks;
  }
}
