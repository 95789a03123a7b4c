/** The Python string built-ins that the puzzle functions rely on:
    `str.isspace`, `str.strip()`, `str.split('\n')`, `'\n'.join` and slicing
    with non-negative bounds. */
module StrOps {

  const NEWLINE: char := '\n'

  /** Python's `str.isspace` on one character: the code points of Unicode
      category Zs and of bidirectional class WS, B or S. */
  predicate IsSpace(c: char) {
    var n := c as int;
    || (0x09 <= n <= 0x0d)
    || (0x1c <= n <= 0x20)
    || n == 0x85
    || n == 0xa0
    || n == 0x1680
    || (0x2000 <= n <= 0x200a)
    || n == 0x2028
    || n == 0x2029
    || n == 0x202f
    || n == 0x205f
    || n == 0x3000
  }

  /** `s.rstrip()`: the longest prefix of `s` that does not end in whitespace,
      where everything cut off is whitespace. */
  function StripRight(s: string): (r: string)
    ensures |r| <= |s| && r == s[..|r|]
    ensures forall i :: |r| <= i < |s| ==> IsSpace(s[i])
    ensures r == [] || !IsSpace(r[|r| - 1])
  {
    if |s| > 0 && IsSpace(s[|s| - 1]) then StripRight(s[..|s| - 1]) else s
  }

  /** `s.lstrip()`: the longest suffix of `s` that does not start with
      whitespace, where everything cut off is whitespace. */
  function StripLeft(s: string): (r: string)
    ensures |r| <= |s| && r == s[|s| - |r|..]
    ensures forall i :: 0 <= i < |s| - |r| ==> IsSpace(s[i])
    ensures r == [] || !IsSpace(r[0])
  {
    if |s| > 0 && IsSpace(s[0]) then StripLeft(s[1..]) else s
  }

  /** `s.strip()`. */
  function Strip(s: string): string {
    StripLeft(StripRight(s))
  }

  /** `'\n'.join(pieces)`. */
  function Join(pieces: seq<string>): string
    requires |pieces| >= 1
  {
    if |pieces| == 1 then pieces[0] else pieces[0] + [NEWLINE] + Join(pieces[1..])
  }

  /** `s.split('\n')`: the unique list of newline-free pieces that `'\n'.join`
      turns back into `s`. */
  function Split(s: string): (r: seq<string>)
    ensures |r| >= 1
    ensures Join(r) == s
    ensures forall k :: 0 <= k < |r| ==> NEWLINE !in r[k]
  {
    if |s| == 0 then
      [""]
    else if s[0] == NEWLINE then
      assert s == [NEWLINE] + s[1..];
      [""] + Split(s[1..])
    else
      var rest := Split(s[1..]);
      var r := [[s[0]] + rest[0]] + rest[1..];
      assert r[1..] == rest[1..];
      assert s == [s[0]] + s[1..];
      r
  }

  /** Prepending newline-free text to a string extends its first piece. */
  lemma {:induction false} SplitPrepend(a: string, s: string)
    requires NEWLINE !in a
    ensures Split(a + s) == [a + Split(s)[0]] + Split(s)[1..]
    decreases |a|
  {
    if a != [] {
      SplitPrepend(a[1..], s);
      var r, rest := Split(s), Split(a[1..] + s);
      assert (a + s)[1..] == a[1..] + s;
      assert (a + s)[0] == a[0] && a[0] != NEWLINE;
      assert rest[0] == a[1..] + r[0] && rest[1..] == r[1..];
      assert [a[0]] + rest[0] == a + r[0];
    } else {
      var r := Split(s);
      assert a + s == s && a + r[0] == r[0];
      assert r == [r[0]] + r[1..];
    }
  }

  /** `split` inverts `join` on newline-free pieces. */
  lemma {:induction false} SplitJoin(pieces: seq<string>)
    requires |pieces| >= 1
    requires forall k :: 0 <= k < |pieces| ==> NEWLINE !in pieces[k]
    ensures Split(Join(pieces)) == pieces
    decreases |pieces|
  {
    if |pieces| == 1 {
      SplitPrepend(pieces[0], "");
      assert pieces[0] + "" == pieces[0];
    } else {
      var tail := Join(pieces[1..]);
      SplitJoin(pieces[1..]);
      assert pieces[0] + [NEWLINE] + tail == pieces[0] + ([NEWLINE] + tail);
      SplitPrepend(pieces[0], [NEWLINE] + tail);
      assert ([NEWLINE] + tail)[1..] == tail;
      assert Split([NEWLINE] + tail) == [""] + Split(tail);
      assert pieces[0] + "" == pieces[0];
      assert pieces == [pieces[0]] + pieces[1..];
    }
  }

  function Min(a: int, b: int): int {
    if a <= b then a else b
  }

  /** `s[lo:hi]` for non-negative bounds: bounds past the end are clamped and
      an empty or inverted range gives the empty string. */
  function Slice(s: string, lo: nat, hi: nat): (r: string)
    ensures |r| == if lo < hi && lo < |s| then Min(hi, |s|) - lo else 0
    ensures forall i :: 0 <= i < |r| ==> r[i] == s[lo + i]
  {
    if lo < hi && lo < |s| then s[lo..Min(hi, |s|)] else ""
  }
}
