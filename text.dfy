/** Character classes of regular expressions and string helpers. */
module Text {

  /** The character classes the action-item pattern is built from. */
  datatype CharClass =
    | Digit       // \d
    | Space       // \s
    | Word        // \w
    | NotNewline  // .

  /** `\d`, over ASCII digits only. */
  predicate IsDigit(c: char) {
    '0' <= c <= '9'
  }

  /** `\s` on a str pattern: exactly the characters Python's `str.isspace` accepts. */
  predicate IsSpace(c: char) {
    || c == ' '
    || '\t' <= c <= '\r'
    || '\U{1C}' <= c <= '\U{1F}'
    || c == '\U{85}' || c == '\U{A0}' || c == '\U{1680}'
    || '\U{2000}' <= c <= '\U{200A}'
    || c == '\U{2028}' || c == '\U{2029}' || c == '\U{202F}' || c == '\U{205F}' || c == '\U{3000}'
  }

  /** `\w`, over ASCII letters, digits and the underscore. */
  predicate IsWordChar(c: char) {
    'a' <= c <= 'z' || 'A' <= c <= 'Z' || IsDigit(c) || c == '_'
  }

  predicate InClass(c: char, k: CharClass) {
    match k
    case Digit => IsDigit(c)
    case Space => IsSpace(c)
    case Word => IsWordChar(c)
    case NotNewline => c != '\n'
  }

  /** Every character of t[lo..hi] belongs to class k. */
  predicate AllIn(t: string, lo: nat, hi: nat, k: CharClass) {
    lo <= hi <= |t| && forall j {:trigger InClass(t[j], k)} :: lo <= j < hi ==> InClass(t[j], k)
  }

  /** The end of the longest run of class-k characters that starts at i:
      where a greedy quantifier over k stops on its first attempt. */
  function RunEnd(t: string, i: nat, k: CharClass): (e: nat)
    requires i <= |t|
    ensures AllIn(t, i, e, k)
    ensures e == |t| || !InClass(t[e], k)
    decreases |t| - i
  {
    if i < |t| && InClass(t[i], k) then RunEnd(t, i + 1, k) else i
  }

  /** A run of class k inside t[lo..] ends no later than RunEnd, and at RunEnd
      exactly when the character after it is outside the class. */
  lemma RunEndBounds(t: string, lo: nat, hi: nat, k: CharClass)
    requires AllIn(t, lo, hi, k)
    ensures hi <= RunEnd(t, lo, k)
    ensures (hi == |t| || !InClass(t[hi], k)) ==> hi == RunEnd(t, lo, k)
  {
  }

  lemma AllInPrefix(t: string, lo: nat, mid: nat, hi: nat, k: CharClass)
    requires AllIn(t, lo, hi, k) && lo <= mid <= hi
    ensures AllIn(t, lo, mid, k)
  {
    forall j | lo <= j < mid ensures InClass(t[j], k) {
      assert InClass(t[j], k);
    }
  }

  /** The literal lit occurs in t at position i. */
  predicate LiteralAt(t: string, i: nat, lit: string) {
    i + |lit| <= |t| && t[i..i + |lit|] == lit
  }

  /** `str.lower` on one character, over ASCII letters only. */
  function LowerChar(c: char): char {
    if 'A' <= c <= 'Z' then (c as int + 32) as char else c
  }

  function Lower(s: string): string {
    seq(|s|, k requires 0 <= k < |s| => LowerChar(s[k]))
  }
}
