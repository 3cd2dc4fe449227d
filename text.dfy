/**
 * Character search in text, as Rust's `str::find` and `str::rfind` do it
 * for a single character. Text is a sequence of Unicode scalar values; the
 * characters searched for here are ASCII, so a character index and the byte
 * index Rust reports name the same position.
 */
module Text {
  import opened Wrappers

  /** True when `c` does not occur in `s` strictly before index `i`. */
  ghost predicate NoneBefore(s: string, c: char, i: int)
  {
    forall j :: 0 <= j < i && j < |s| ==> s[j] != c
  }

  /** True when `c` does not occur in `s` strictly after index `i`. */
  ghost predicate NoneAfter(s: string, c: char, i: int)
  {
    forall j :: 0 <= j && i < j < |s| ==> s[j] != c
  }

  /** The index of the first occurrence of `c` in `s` (`str::find`). */
  function Find(s: string, c: char): (r: Option<nat>)
    ensures r.Some? ==> r.value < |s| && s[r.value] == c && NoneBefore(s, c, r.value)
    ensures r.None? <==> c !in s
  {
    if |s| == 0 then None
    else if s[0] == c then Some(0)
    else
      match Find(s[1..], c)
      case None => None
      case Some(i) => Some(i + 1)
  }

  /** The index of the last occurrence of `c` in `s` (`str::rfind`). */
  function RFind(s: string, c: char): (r: Option<nat>)
    ensures r.Some? ==> r.value < |s| && s[r.value] == c && NoneAfter(s, c, r.value)
    ensures r.None? <==> c !in s
  {
    if |s| == 0 then None
    else if s[|s| - 1] == c then Some(|s| - 1)
    else RFind(s[..|s| - 1], c)
  }

  /** An occurrence of `c` with none before it is what `Find` reports. */
  lemma FindIsFirst(s: string, c: char, i: nat)
    requires i < |s| && s[i] == c && NoneBefore(s, c, i)
    ensures Find(s, c) == Some(i)
  {
  }

  /** An occurrence of `c` with none after it is what `RFind` reports. */
  lemma RFindIsLast(s: string, c: char, i: nat)
    requires i < |s| && s[i] == c && NoneAfter(s, c, i)
    ensures RFind(s, c) == Some(i)
  {
  }
}
