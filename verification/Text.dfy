/**
  Protocol text: byte strings that are well-formed UTF-8 (section 4 of RFC 3629),
  with the trimming and control-character checks the validators apply to them.
 */
module Text {
  import opened Bytes

  predicate Continuation(b: Byte) { 0x80 <= b <= 0xBF }

  /** Byte length of the leading scalar value, or 0 when the bytes are malformed there. */
  function ScalarLength(s: Bytes): (n: nat)
    ensures n <= |s|
  {
    if s == [] then 0
    else if s[0] <= 0x7F then 1
    else if 0xC2 <= s[0] <= 0xDF then
      if |s| >= 2 && Continuation(s[1]) then 2 else 0
    else if 0xE0 <= s[0] <= 0xEF then
      if |s| >= 3 && Continuation(s[1]) && Continuation(s[2])
         && (s[0] == 0xE0 ==> 0xA0 <= s[1]) && (s[0] == 0xED ==> s[1] <= 0x9F)
      then 3 else 0
    else if 0xF0 <= s[0] <= 0xF4 then
      if |s| >= 4 && Continuation(s[1]) && Continuation(s[2]) && Continuation(s[3])
         && (s[0] == 0xF0 ==> 0x90 <= s[1]) && (s[0] == 0xF4 ==> s[1] <= 0x8F)
      then 4 else 0
    else 0
  }

  /** The scalar value spelled by the one to four bytes of a well-formed unit. */
  function Scalar(u: Bytes): (c: int)
    requires 1 <= |u| <= 4
  {
    match |u|
    case 1 => Low(u[0], 0)
    case 2 => Low(u[0], 0xC0) * 0x40 + Low(u[1], 0x80)
    case 3 => Low(u[0], 0xE0) * 0x1000 + Low(u[1], 0x80) * 0x40 + Low(u[2], 0x80)
    case _ => Low(u[0], 0xF0) * 0x4_0000 + Low(u[1], 0x80) * 0x1000 + Low(u[2], 0x80) * 0x40 + Low(u[3], 0x80)
  }

  function Low(b: Byte, marker: int): int { b - marker }

  predicate Utf8(s: Bytes)
  {
    s == [] || (ScalarLength(s) > 0 && Utf8(s[ScalarLength(s)..]))
  }

  type Text = s: Bytes | Utf8(s) witness []

  /** The scalar values a text spells. */
  function Chars(s: Text): seq<int>
    decreases |s|
  {
    if s == [] then []
    else
      var n := ScalarLength(s);
      [Scalar(s[..n])] + Chars(s[n..])
  }

  /** Unicode White_Space, which is what `str::trim` removes. */
  predicate WhiteSpace(c: int)
  {
    || 0x09 <= c <= 0x0D || c == 0x20 || c == 0x85 || c == 0xA0 || c == 0x1680
    || 0x2000 <= c <= 0x200A || c == 0x2028 || c == 0x2029 || c == 0x202F
    || c == 0x205F || c == 0x3000
  }

  predicate Control(c: int) { c <= 0x1F || 0x7F <= c <= 0x9F }

  /** `value.trim() == value` */
  predicate Trimmed(s: Text)
  {
    var cs := Chars(s);
    cs != [] ==> !WhiteSpace(cs[0]) && !WhiteSpace(cs[|cs| - 1])
  }

  predicate HasControl(s: Text)
  {
    exists i :: 0 <= i < |Chars(s)| && Control(Chars(s)[i])
  }

  /** The check every bounded text field passes: nonempty, short, trimmed, printable. */
  predicate Printable(s: Text, maximum: nat)
  {
    0 < |s| <= maximum && Trimmed(s) && !HasControl(s)
  }

  predicate IsAscii(s: Bytes) { forall i :: 0 <= i < |s| ==> s[i] < 0x80 }

  predicate HasAsciiControl(s: Bytes) { exists i :: 0 <= i < |s| && (s[i] < 0x20 || s[i] == 0x7F) }

  /** The check for registered identifiers: printable ASCII without surrounding space. */
  predicate RegisteredId(s: Text, maximum: nat)
  {
    0 < |s| <= maximum && Trimmed(s) && IsAscii(s) && !HasAsciiControl(s)
  }

  predicate Contains(hay: Bytes, needle: Bytes)
  {
    |needle| <= |hay| && (hay[..|needle|] == needle || (hay != [] && Contains(hay[1..], needle)))
  }

  // ---- Constants -----------------------------------------------------------

  lemma {:induction false} AsciiIsUtf8(s: Bytes)
    requires IsAscii(s)
    ensures Utf8(s)
  {
    if s != [] { AsciiIsUtf8(s[1..]); }
  }

  lemma {:induction false} CharsOfAscii(s: Text)
    requires IsAscii(s)
    ensures Chars(s) == s
  {
    if s != [] { CharsOfAscii(s[1..]); }
  }

  predicate Visible(c: char) { '!' <= c <= '~' }

  function ByteOf(c: char): (b: Byte)
    ensures 0x20 < b < 0x7F
    ensures Visible(c) ==> b == c as int
  {
    if Visible(c) then c as int else '?' as int
  }

  /** A protocol constant, written as a literal of visible ASCII characters. */
  function Ascii(literal: string): (s: Text)
    ensures |s| == |literal|
    ensures forall i :: 0 <= i < |s| ==> s[i] == ByteOf(literal[i])
    ensures 0 < |literal| <= 512 ==> Printable(s, 512)
  {
    var s := seq<Byte>(|literal|, i requires 0 <= i < |literal| => ByteOf(literal[i]));
    VisibleIsPrintable(s);
    s
  }

  /** A protocol constant of several words, given as its first word, the middle and its last word. */
  function Sentence(first: string, middle: string, last: string): (s: Text)
    requires first != "" && first[0] != ' ' && last != "" && last[|last| - 1] != ' '
    requires |first| + |middle| + |last| <= 510
    ensures Printable(s, 512)
  {
    var all := first + " " + middle + " " + last;
    var s := seq<Byte>(|all|, i requires 0 <= i < |all| => if all[i] == ' ' then 0x20 else ByteOf(all[i]));
    assert s[0] != 0x20 && s[|s| - 1] != 0x20;
    SpacedIsPrintable(s);
    s
  }

  lemma SpacedIsPrintable(s: Bytes)
    requires 0 < |s| <= 512 && (forall i :: 0 <= i < |s| ==> 0x20 <= s[i] < 0x7F) && s[0] != 0x20 && s[|s| - 1] != 0x20
    ensures Utf8(s) && Printable(s, 512)
  {
    hide Utf8, Chars;
    AsciiIsUtf8(s);
    CharsOfAscii(s);
  }

  lemma VisibleIsPrintable(s: Bytes)
    requires forall i :: 0 <= i < |s| ==> 0x20 < s[i] < 0x7F
    ensures Utf8(s)
    ensures s != [] && |s| <= 512 ==> Printable(s, 512)
  {
    AsciiIsUtf8(s);
    VisibleTextIsPrintable(s);
  }

  lemma VisibleTextIsPrintable(s: Text)
    requires forall i :: 0 <= i < |s| ==> 0x20 < s[i] < 0x7F
    ensures Trimmed(s) && !HasControl(s)
  {
    CharsOfAscii(s);
  }
}
