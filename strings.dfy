/**
 * The string operations the form relies on: searching for a character,
 * JavaScript's `String.prototype.replace` with a one-character string
 * pattern (which replaces the first occurrence only), and
 * `String.prototype.toLowerCase` restricted to ASCII letters.
 */
module Strings {
  import opened Wrappers

  /** The index of the first occurrence of `c` in `s`, if there is one. */
  function IndexOf(s: string, c: char): (r: Option<nat>)
    ensures r.None? <==> c !in s
    ensures r.Some? ==> r.value < |s| && s[r.value] == c
    ensures r.Some? ==> forall k :: 0 <= k < r.value ==> s[k] != c
  {
    if s == [] then None
    else if s[0] == c then Some(0)
    else
      match IndexOf(s[1..], c)
      case None => None
      case Some(i) => Some(i + 1)
  }

  /** A character that is absent from a prefix is found right after it. */
  lemma {:induction false} IndexOfAfter(a: string, c: char, b: string)
    requires c !in a
    ensures IndexOf(a + [c] + b, c) == Some(|a|)
  {
    if a != [] {
      assert (a + [c] + b)[1..] == a[1..] + [c] + b;
      IndexOfAfter(a[1..], c, b);
    }
  }

  /**
   * `s.replace(from, to)` for one-character strings `from` and `to`: the
   * first occurrence of `from`, if any, is replaced by `to`.
   */
  function ReplaceFirst(s: string, from: char, to: char): (r: string)
    ensures |r| == |s|
  {
    match IndexOf(s, from)
    case None => s
    case Some(i) => s[..i] + [to] + s[i + 1..]
  }

  /**
   * Character by character: the first `from` becomes `to`; every other
   * character, a later `from` included, is kept.
   */
  lemma ReplaceFirstAt(s: string, from: char, to: char)
    ensures forall k :: 0 <= k < |s| ==>
      ReplaceFirst(s, from, to)[k] == (if s[k] == from && from !in s[..k] then to else s[k])
  {
    var r := ReplaceFirst(s, from, to);
    match IndexOf(s, from)
    case None =>
      assert forall k :: 0 <= k < |s| ==> s[k] != from;
    case Some(i) =>
      forall k | 0 <= k < |s|
        ensures r[k] == (if s[k] == from && from !in s[..k] then to else s[k])
      {
        if k < i {
          assert s[k] in s[..i];
        } else if k > i {
          assert s[..k][i] == from;
        }
      }
  }

  /** Only the first occurrence is replaced: the text after it is left alone. */
  lemma ReplaceFirstAfter(a: string, from: char, to: char, b: string)
    requires from !in a
    ensures ReplaceFirst(a + [from] + b, from, to) == a + [to] + b
  {
    var s := a + [from] + b;
    IndexOfAfter(a, from, b);
    assert s[..|a|] == a;
    assert s[|a| + 1..] == b;
  }

  /** The lower-case form of an ASCII upper-case letter; every other character is kept. */
  function LowerChar(c: char): (d: char)
    ensures 'A' <= c <= 'Z' ==> 'a' <= d <= 'z' && d as int - c as int == 'a' as int - 'A' as int
    ensures !('A' <= c <= 'Z') ==> d == c
  {
    if 'A' <= c <= 'Z' then (c as int - 'A' as int + 'a' as int) as char else c
  }

  /** `s.toLowerCase()` on ASCII letters: every character is lower-cased on its own. */
  function ToLower(s: string): (r: string)
    ensures |r| == |s|
    ensures forall k :: 0 <= k < |s| ==> r[k] == LowerChar(s[k])
  {
    seq(|s|, k requires 0 <= k < |s| => LowerChar(s[k]))
  }

  /** Lower-casing works character by character, so it distributes over concatenation. */
  lemma ToLowerConcat(a: string, b: string)
    ensures ToLower(a + b) == ToLower(a) + ToLower(b)
  {
  }

  /**
   * Lower-casing keeps every character that is not an upper-case letter (the
   * space among them), leaves no upper-case letter behind, and so changes
   * nothing when done twice.
   */
  lemma ToLowerProperties(s: string)
    ensures forall k :: 0 <= k < |s| ==> !('A' <= ToLower(s)[k] <= 'Z')
    ensures forall k :: 0 <= k < |s| && !('A' <= s[k] <= 'Z') ==> ToLower(s)[k] == s[k]
    ensures ToLower(ToLower(s)) == ToLower(s)
  {
  }
}
