/**
 * Parsing of the `Members` cell of an assignment row (slack/create_channel.py,
 * line 100): the cell is split on every comma, as Python's `str.split(',')`
 * does, and each piece is stripped of surrounding whitespace, as
 * `str.strip()` with no argument does.
 */
module MemberList {

  const COMMA: char := ','

  function CommaCount(s: string): nat
  {
    if s == [] then 0 else (if s[0] == COMMA then 1 else 0) + CommaCount(s[1..])
  }

  // ---------------------------------------------------------------------------
  // s.split(',')
  // ---------------------------------------------------------------------------

  /** The pieces of `s` between commas, empty pieces included; `""` splits into `[""]`. */
  function Split(s: string): (r: seq<string>)
    ensures |r| == CommaCount(s) + 1
    ensures forall k :: 0 <= k < |r| ==> COMMA !in r[k]
  {
    if s == [] then [[]]
    else if s[0] == COMMA then [[]] + Split(s[1..])
    else
      var rest := Split(s[1..]);
      [[s[0]] + rest[0]] + rest[1..]
  }

  /** `','.join(parts)` */
  function Join(parts: seq<string>): string
  {
    if parts == [] then []
    else if |parts| == 1 then parts[0]
    else parts[0] + [COMMA] + Join(parts[1..])
  }

  lemma {:induction false} JoinPrependChar(c: char, parts: seq<string>)
    requires |parts| >= 1
    ensures Join([[c] + parts[0]] + parts[1..]) == [c] + Join(parts)
  {
    var head, tail := [c] + parts[0], parts[1..];
    var q := [head] + tail;
    assert q[0] == head && q[1..] == tail;
    if tail == [] {
      assert Join(q) == head;
      assert Join(parts) == parts[0];
    } else {
      assert Join(q) == head + [COMMA] + Join(tail);
      assert Join(parts) == parts[0] + [COMMA] + Join(tail);
      ConsAssoc(c, parts[0], [COMMA] + Join(tail));
    }
  }

  lemma ConsAssoc(c: char, x: string, y: string)
    ensures [c] + x + y == [c] + (x + y)
  {
  }

  /** Splitting loses nothing: joining the pieces with commas rebuilds the cell. */
  lemma {:induction false} JoinSplit(s: string)
    ensures Join(Split(s)) == s
    decreases |s|
  {
    if s != [] {
      JoinSplit(s[1..]);
      if s[0] == COMMA {
        assert ([[]] + Split(s[1..]))[1..] == Split(s[1..]);
        assert s == [COMMA] + s[1..];
      } else {
        JoinPrependChar(s[0], Split(s[1..]));
        assert s == [s[0]] + s[1..];
      }
    }
  }

  lemma {:induction false} SplitAfterPiece(p: string, s: string)
    requires COMMA !in p
    ensures Split(p + s) == [p + Split(s)[0]] + Split(s)[1..]
    decreases |p|
  {
    if p != [] {
      SplitAfterPiece(p[1..], s);
      assert (p + s)[1..] == p[1..] + s;
      assert [p[0]] + (p[1..] + Split(s)[0]) == p + Split(s)[0];
    } else {
      assert p + s == s;
      assert p + Split(s)[0] == Split(s)[0];
      assert [Split(s)[0]] + Split(s)[1..] == Split(s);
    }
  }

  /** Comma-free pieces, joined with commas, split back into the same pieces. */
  lemma {:induction false} SplitJoin(parts: seq<string>)
    requires |parts| >= 1
    requires forall k :: 0 <= k < |parts| ==> COMMA !in parts[k]
    ensures Split(Join(parts)) == parts
    decreases |parts|
  {
    if |parts| == 1 {
      SplitAfterPiece(parts[0], []);
      assert parts[0] + [] == parts[0];
    } else {
      var rest := Join(parts[1..]);
      SplitJoin(parts[1..]);
      assert parts[0] + [COMMA] + rest == parts[0] + ([COMMA] + rest);
      SplitAfterPiece(parts[0], [COMMA] + rest);
      assert ([COMMA] + rest)[1..] == rest;
      assert parts[0] + [] == parts[0];
      assert [parts[0]] + parts[1..] == parts;
    }
  }

  // ---------------------------------------------------------------------------
  // s.strip()
  // ---------------------------------------------------------------------------

  /**
   * The characters Python's `str.isspace` (and so `str.strip()`) treats as
   * whitespace, by code point: tab to carriage return, the four information
   * separators, space, NEL, no-break space, ogham space mark, the spaces
   * U+2000 to U+200A, line and paragraph separators, narrow no-break space,
   * medium mathematical space and ideographic space.
   */
  predicate IsSpace(c: char)
    ensures c == ' ' || c == '\t' || c == '\n' || c == '\r' ==> IsSpace(c)
    ensures IsSpace(c) ==> c != COMMA && !('0' <= c <= '9') && !('A' <= c <= 'Z') && !('a' <= c <= 'z')
  {
    var n := c as int;
    || 0x09 <= n <= 0x0D
    || 0x1C <= n <= 0x20
    || n == 0x85 || n == 0xA0 || n == 0x1680
    || 0x2000 <= n <= 0x200A
    || n == 0x2028 || n == 0x2029 || n == 0x202F || n == 0x205F || n == 0x3000
  }

  predicate AllSpace(s: string)
  {
    forall i :: 0 <= i < |s| ==> IsSpace(s[i])
  }

  /** Neither end of `s` is whitespace. */
  predicate Stripped(s: string)
  {
    s == [] || (!IsSpace(s[0]) && !IsSpace(s[|s| - 1]))
  }

  /** The first index at or after `i` that does not hold whitespace, or `|s|`. */
  function LeadEnd(s: string, i: nat): (n: nat)
    requires i <= |s|
    ensures i <= n <= |s|
    ensures forall k :: i <= k < n ==> IsSpace(s[k])
    ensures n == |s| || !IsSpace(s[n])
    decreases |s| - i
  {
    if i < |s| && IsSpace(s[i]) then LeadEnd(s, i + 1) else i
  }

  /** The least index `m` in `lo..j` such that `s[m..j]` is all whitespace. */
  function TrailStart(s: string, lo: nat, j: nat): (m: nat)
    requires lo <= j <= |s|
    ensures lo <= m <= j
    ensures forall k :: m <= k < j ==> IsSpace(s[k])
    ensures m == lo || !IsSpace(s[m - 1])
    decreases j
  {
    if lo < j && IsSpace(s[j - 1]) then TrailStart(s, lo, j - 1) else j
  }

  /** Where `s.strip()` starts cutting nothing off the front. */
  function StripFrom(s: string): (i: nat)
    ensures i <= |s|
  {
    LeadEnd(s, 0)
  }

  /** Where the trailing whitespace cut off by `s.strip()` begins. */
  function StripTo(s: string): (j: nat)
    ensures StripFrom(s) <= j <= |s|
  {
    TrailStart(s, StripFrom(s), |s|)
  }

  /**
   * `s.strip()`: the part of `s` left between its leading and its trailing
   * whitespace.
   */
  function Strip(s: string): (r: string)
    ensures Stripped(r)
  {
    s[StripFrom(s)..StripTo(s)]
  }

  /** Strip keeps a contiguous part of `s` and removes only whitespace on either side of it. */
  lemma StripIsInfix(s: string)
    ensures var i, j := StripFrom(s), StripTo(s);
            && i <= j <= |s| && Strip(s) == s[i..j]
            && AllSpace(s[..i]) && AllSpace(s[j..])
  {
    var i, j := StripFrom(s), StripTo(s);
    assert forall k :: 0 <= k < i ==> s[..i][k] == s[k];
    assert forall k :: 0 <= k < |s| - j ==> s[j..][k] == s[j + k];
  }

  lemma {:induction false} LeadEndAt(s: string, i: nat, n: nat)
    requires i <= n <= |s|
    requires forall k :: i <= k < n ==> IsSpace(s[k])
    requires n == |s| || !IsSpace(s[n])
    ensures LeadEnd(s, i) == n
    decreases n - i
  {
    if i < n {
      LeadEndAt(s, i + 1, n);
    }
  }

  lemma {:induction false} TrailStartAt(s: string, lo: nat, m: nat, j: nat)
    requires lo <= m <= j <= |s|
    requires forall k :: m <= k < j ==> IsSpace(s[k])
    requires m == lo || !IsSpace(s[m - 1])
    ensures TrailStart(s, lo, j) == m
    decreases j - m
  {
    if m < j {
      TrailStartAt(s, lo, m, j - 1);
    }
  }

  /** Stripping removes exactly the whitespace padding around a stripped core. */
  lemma StripPadded(lead: string, core: string, trail: string)
    requires AllSpace(lead) && AllSpace(trail) && Stripped(core)
    ensures Strip(lead + core + trail) == core
  {
    var s := lead + core + trail;
    var i, j := |lead|, |lead| + |core|;
    assert forall k :: 0 <= k < i ==> s[k] == lead[k];
    assert forall k :: i <= k < j ==> s[k] == core[k - i];
    assert forall k :: j <= k < |s| ==> s[k] == trail[k - j];
    if core == [] {
      LeadEndAt(s, 0, |s|);
      TrailStartAt(s, |s|, |s|, |s|);
      assert s[|s|..|s|] == core;
    } else {
      LeadEndAt(s, 0, i);
      TrailStartAt(s, i, j, |s|);
      assert s[i..j] == core;
    }
  }

  // ---------------------------------------------------------------------------
  // [member.strip() for member in row['Members'].split(',')]
  // ---------------------------------------------------------------------------

  /** The member identifiers of a row: every comma-separated piece, stripped. */
  function Members(cell: string): (r: seq<string>)
    ensures |r| == CommaCount(cell) + 1
    ensures forall k :: 0 <= k < |r| ==> Stripped(r[k]) && COMMA !in r[k]
  {
    var parts := Split(cell);
    seq(|parts|, k requires 0 <= k < |parts| => StripKeepsCommaFree(parts[k]); Strip(parts[k]))
  }

  lemma StripKeepsCommaFree(s: string)
    requires COMMA !in s
    ensures COMMA !in Strip(s)
  {
    var i, j := StripFrom(s), StripTo(s);
    forall k | 0 <= k < j - i
      ensures Strip(s)[k] != COMMA
    {
      assert Strip(s)[k] == s[i + k];
    }
  }

  /** A cell written as comma-separated, whitespace-padded identifiers parses back to those identifiers. */
  lemma MembersOfCell(parts: seq<string>, names: seq<string>)
    requires |parts| >= 1 && |parts| == |names|
    requires forall k :: 0 <= k < |parts| ==> COMMA !in parts[k] && Strip(parts[k]) == names[k]
    ensures Members(Join(parts)) == names
  {
    SplitJoin(parts);
  }

  /** The cell "U1, U2,U3" names three members. */
  lemma MembersExample()
    ensures Members("U1, U2,U3") == ["U1", "U2", "U3"]
  {
    var parts, names := ["U1", " U2", "U3"], ["U1", "U2", "U3"];
    ExamplePiecesStrip();
    assert Join(parts) == "U1, U2,U3" by {
      assert parts[1..] == [" U2", "U3"] && parts[1..][1..] == ["U3"];
    }
    assert forall k :: 0 <= k < 3 ==> COMMA !in parts[k];
    MembersOfCell(parts, names);
  }

  lemma ExamplePiecesStrip()
    ensures Strip("U1") == "U1" && Strip(" U2") == "U2" && Strip("U3") == "U3"
  {
    ExampleStripPadded(" ", "U2");
    ExampleStripPadded("", "U1");
    ExampleStripPadded("", "U3");
  }

  lemma ExampleStripPadded(lead: string, name: string)
    requires lead == "" || lead == " "
    requires |name| == 2 && name[0] == 'U' && '0' <= name[1] <= '9'
    ensures Strip(lead + name) == name
  {
    assert lead + name == lead + name + "";
    StripPadded(lead, name, "");
  }
}
