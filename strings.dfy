/**
 * The PHP string primitives the class resolver is built on: `trim`,
 * `explode` (with its inverse `implode`) and Magento's `uc_words`.
 */
module Strings {

  /** The characters PHP's `trim` strips by default: " \t\n\r\0\x0B". */
  predicate IsTrimChar(c: char) {
    c == ' ' || c == '\t' || c == '\n' || c == '\r' || c == '\0' || c == '\U{000B}'
  }

  predicate AllTrimChars(s: string) {
    forall k :: 0 <= k < |s| ==> IsTrimChar(s[k])
  }

  /** The number of trim characters `s` starts with. */
  function LeadingTrim(s: string): (n: nat)
    ensures n <= |s|
    ensures forall k :: 0 <= k < n ==> IsTrimChar(s[k])
    ensures n < |s| ==> !IsTrimChar(s[n])
  {
    if s != [] && IsTrimChar(s[0]) then 1 + LeadingTrim(s[1..]) else 0
  }

  /** Where the trailing run of trim characters of `s` begins, looking no further left than `from`. */
  function TrailingTrim(s: string, from: nat): (m: nat)
    requires from <= |s|
    ensures from <= m <= |s|
    ensures forall k :: m <= k < |s| ==> IsTrimChar(s[k])
    ensures m > from ==> !IsTrimChar(s[m - 1])
    decreases |s|
  {
    if |s| > from && IsTrimChar(s[|s| - 1]) then
      var m := TrailingTrim(s[..|s| - 1], from);
      assert forall k :: m <= k < |s| - 1 ==> s[..|s| - 1][k] == s[k];
      m
    else |s|
  }

  /**
   * PHP `trim($s)`: the slice of `s` left once the leading and the trailing
   * trim characters are removed; it neither starts nor ends with one.
   */
  function Trim(s: string): (r: string)
    ensures var i := LeadingTrim(s);
      && i + |r| <= |s| && r == s[i..i + |r|]
      && AllTrimChars(s[..i]) && AllTrimChars(s[i + |r|..])
    ensures r != [] ==> !IsTrimChar(r[0]) && !IsTrimChar(r[|r| - 1])
  {
    var i := LeadingTrim(s);
    s[i..TrailingTrim(s, i)]
  }

  /** PHP `implode(sep, parts)`. */
  function Join(parts: seq<string>, sep: char): string
    requires |parts| >= 1
  {
    if |parts| == 1 then parts[0] else parts[0] + [sep] + Join(parts[1..], sep)
  }

  /** How a joined string starts: the first piece, then the separator and the rest. */
  lemma JoinShape(parts: seq<string>, sep: char)
    requires |parts| >= 1
    ensures parts[0] <= Join(parts, sep)
    ensures |parts| == 1 ==> Join(parts, sep) == parts[0]
    ensures |parts| > 1 ==>
      && |Join(parts, sep)| > |parts[0]|
      && Join(parts, sep)[|parts[0]|] == sep
      && Join(parts, sep)[|parts[0]| + 1..] == Join(parts[1..], sep)
  {
    if |parts| > 1 {
      assert Join(parts, sep) == parts[0] + ([sep] + Join(parts[1..], sep));
    }
  }

  /**
   * PHP `explode(sep, s)`: the maximal separator-free pieces of `s`, in order;
   * there is always at least one piece and joining them back gives `s`.
   */
  function Explode(s: string, sep: char): (parts: seq<string>)
    ensures |parts| >= 1
    ensures forall k :: 0 <= k < |parts| ==> sep !in parts[k]
    ensures Join(parts, sep) == s
    decreases |s|
  {
    if s == [] then [[]]
    else if s[0] == sep then
      var rest := Explode(s[1..], sep);
      assert ([[]] + rest)[1..] == rest;
      [[]] + rest
    else
      var rest := Explode(s[1..], sep);
      var parts := [[s[0]] + rest[0]] + rest[1..];
      assert parts[1..] == rest[1..];
      assert s == [s[0]] + s[1..];
      parts
  }

  /** A separator-free word followed by the separator starts a new piece. */
  lemma {:induction false} ExplodeWord(w: string, sep: char, t: string)
    requires sep !in w
    ensures Explode(w, sep) == [w]
    ensures Explode(w + [sep] + t, sep) == [w] + Explode(t, sep)
    decreases |w|
  {
    if w == [] {
      assert w + [sep] + t == [sep] + t;
      assert ([sep] + t)[1..] == t;
    } else {
      ExplodeWord(w[1..], sep, t);
      assert (w + [sep] + t)[1..] == w[1..] + [sep] + t;
      assert w[1..] == w[1..] + [];
    }
  }

  /** `explode` undoes `implode` when no piece contains the separator. */
  lemma {:induction false} ExplodeJoin(parts: seq<string>, sep: char)
    requires |parts| >= 1
    requires forall k :: 0 <= k < |parts| ==> sep !in parts[k]
    ensures Explode(Join(parts, sep), sep) == parts
    decreases |parts|
  {
    if |parts| == 1 {
      ExplodeWord(parts[0], sep, []);
    } else {
      ExplodeJoin(parts[1..], sep);
      ExplodeWord(parts[0], sep, Join(parts[1..], sep));
      assert parts == [parts[0]] + parts[1..];
    }
  }

  /** ASCII upper-casing, as PHP's `ucwords` does in the C locale. */
  function Upper(c: char): (u: char)
    ensures 'a' <= c <= 'z' ==> 'A' <= u <= 'Z' && u as int == c as int - 32
    ensures !('a' <= c <= 'z') ==> u == c
  {
    if 'a' <= c <= 'z' then (c as int - 32) as char else c
  }

  /** True when position `k` of `s` begins an `_`-separated word. */
  predicate WordStart(s: string, k: int)
    requires 0 <= k < |s|
  {
    k == 0 || s[k - 1] == '_'
  }

  function UcWordsFrom(s: string, atStart: bool): (r: string)
    ensures |r| == |s|
    ensures forall k :: 0 <= k < |s| ==>
      r[k] == (if (if k == 0 then atStart else s[k - 1] == '_') then Upper(s[k]) else s[k])
  {
    if s == [] then []
    else [if atStart then Upper(s[0]) else s[0]] + UcWordsFrom(s[1..], s[0] == '_')
  }

  /**
   * Magento's `uc_words($s)`: the first letter of every `_`-separated word is
   * upper-cased and every other character is kept.
   */
  function UcWords(s: string): (r: string)
    ensures |r| == |s|
    ensures forall k :: 0 <= k < |s| ==> r[k] == if WordStart(s, k) then Upper(s[k]) else s[k]
  {
    UcWordsFrom(s, true)
  }

  /** Applying `uc_words` to its own result changes nothing. */
  lemma UcWordsIdempotent(s: string)
    ensures UcWords(UcWords(s)) == UcWords(s)
  {
    var r := UcWords(s);
    forall k | 0 <= k < |s|
      ensures UcWords(r)[k] == r[k]
    {
      assert k > 0 ==> (r[k - 1] == '_' <==> s[k - 1] == '_');
    }
  }
}
