/** Python's `str` operations that the modelled code calls: searching, replacing, stripping, and the
    white-space class shared by `str.isspace`, `str.strip` and `\s`, with what the other modules need
    to know about them. */
module Strings {

  /** The code points Python treats as white space. */
  predicate IsSpace(c: char) {
    var n := c as int;
    || 0x09 <= n <= 0x0D || 0x1C <= n <= 0x20 || n == 0x85 || n == 0xA0 || n == 0x1680
    || 0x2000 <= n <= 0x200A || n == 0x2028 || n == 0x2029 || n == 0x202F || n == 0x205F || n == 0x3000
  }

  predicate OccursAt(s: string, w: string, i: int) {
    0 <= i <= |s| - |w| && s[i..i + |w|] == w
  }

  ghost predicate Contains(s: string, w: string) {
    exists i :: OccursAt(s, w, i)
  }

  /** `s.find(w, start)`: the first occurrence at or after `start`, or -1. */
  function Find(s: string, w: string, start: nat): (i: int)
    ensures i == -1 || (start <= i && OccursAt(s, w, i))
    ensures i == -1 ==> forall k :: start <= k ==> !OccursAt(s, w, k)
    ensures forall k :: start <= k < i ==> !OccursAt(s, w, k)
    decreases |s| - start
  {
    if start + |w| > |s| then -1
    else if s[start..start + |w|] == w then start
    else Find(s, w, start + 1)
  }

  /** `s.replace(old, new)`: leftmost, non-overlapping. */
  function ReplaceAll(s: string, old_: string, new_: string): string
    requires old_ != ""
    decreases |s|
  {
    if |s| < |old_| then s
    else if s[..|old_|] == old_ then new_ + ReplaceAll(s[|old_|..], old_, new_)
    else [s[0]] + ReplaceAll(s[1..], old_, new_)
  }

  function LStrip(s: string): (r: string)
    ensures r != "" ==> !IsSpace(r[0])
    ensures |r| <= |s| && r == s[|s| - |r|..]
    ensures forall k :: 0 <= k < |s| - |r| ==> IsSpace(s[k])
  {
    if s != "" && IsSpace(s[0]) then LStrip(s[1..]) else s
  }

  function RStrip(s: string): (r: string)
    ensures r != "" ==> !IsSpace(r[|r| - 1])
    ensures |r| <= |s| && r == s[..|r|]
    ensures forall k :: |r| <= k < |s| ==> IsSpace(s[k])
  {
    if s != "" && IsSpace(s[|s| - 1]) then RStrip(s[..|s| - 1]) else s
  }

  /** `s.strip()` */
  function Strip(s: string): string {
    RStrip(LStrip(s))
  }

  lemma OccursChars(s: string, w: string, i: int)
    requires |w| >= 2
    ensures OccursAt(s, w, i) ==> 0 <= i < |s| - 1 && s[i] == w[0] && s[i + 1] == w[1]
    ensures OccursAt(s, w, i) ==> forall k | 0 <= k < |w| :: s[i + k] == w[k]
  {
    if OccursAt(s, w, i) {
      forall k | 0 <= k < |w| ensures s[i + k] == w[k] {
        assert s[i..i + |w|][k] == s[i + k];
      }
    }
  }

  lemma OccursShift(a: string, b: string, w: string, i: int)
    requires |a| <= i
    ensures OccursAt(a + b, w, i) <==> OccursAt(b, w, i - |a|)
  {
    if i + |w| <= |a + b| {
      assert (a + b)[i..i + |w|] == b[i - |a|..i - |a| + |w|];
    }
  }

  lemma OccursLeft(a: string, b: string, w: string, i: int)
    requires i + |w| <= |a|
    ensures OccursAt(a + b, w, i) <==> OccursAt(a, w, i)
  {
    if 0 <= i {
      assert (a + b)[i..i + |w|] == a[i..i + |w|];
    }
  }

  // ---------- decimal numerals ----------

  function Digit(d: nat): char
    requires d < 10
  {
    '0' + d as char
  }

  predicate IsDigit(c: char) { '0' <= c <= '9' }

  /** `str(n)` */
  function Decimal(n: nat): (s: string)
    ensures s != "" && forall c | c in s :: IsDigit(c)
  {
    if n < 10 then [Digit(n)] else Decimal(n / 10) + [Digit(n % 10)]
  }

  /** `int(s)`, of ASCII digits. */
  function Number(s: string): nat
    requires forall c | c in s :: IsDigit(c)
  {
    if s == "" then 0
    else
      var c := s[|s| - 1];
      assert IsDigit(c);
      10 * Number(s[..|s| - 1]) + (c as int - 0x30)
  }

  lemma {:induction false} NumberOfDecimal(n: nat)
    ensures Number(Decimal(n)) == n
  {
    if n < 10 {
      assert [Digit(n)][..0] == "";
    } else {
      NumberOfDecimal(n / 10);
      var s := Decimal(n / 10);
      assert Decimal(n)[..|s|] == s;
    }
  }

  // ---------- matching without regard to case ----------

  /** Case-insensitive equality, in a regular expression, with an ASCII character that is no capital. Of
      the letters, `i` and `s` have equals outside ASCII, as has `k`, which no pattern here uses. */
  predicate EqualsFolded(c: char, lower: char) {
    || c == lower
    || ('a' <= lower <= 'z' && c as int == lower as int - 32)
    || (lower == 'i' && (c as int == 0x130 || c as int == 0x131))
    || (lower == 's' && c as int == 0x17F)
  }

  predicate StartsFolded(s: string, w: string) {
    |w| <= |s| && forall k | 0 <= k < |w| :: EqualsFolded(s[k], w[k])
  }
}
