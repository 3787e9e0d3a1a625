/** String and byte helpers standing in for the parts of Rust's `str`,
    `slice::join` and `format!` that the fleet core relies on. Strings are
    sequences of Unicode scalar values, as Rust's `char` is. */
module Text {

  newtype byte = x: int | 0 <= x < 256

  /** `char::to_ascii_lowercase`: only 'A'..'Z' change. */
  function LowerChar(c: char): char
  {
    if 'A' <= c <= 'Z' then (c as int + 32) as char else c
  }

  /** `str::to_ascii_lowercase` */
  function AsciiLower(s: string): string
  {
    seq(|s|, i requires 0 <= i < |s| => LowerChar(s[i]))
  }

  /** `[String]::join(sep)` */
  function Join(parts: seq<string>, sep: string): string
    decreases |parts|
  {
    if |parts| == 0 then ""
    else if |parts| == 1 then parts[0]
    else parts[0] + sep + Join(parts[1..], sep)
  }

  function Spaces(n: nat): (r: string)
    ensures |r| == n
    ensures forall i :: 0 <= i < n ==> r[i] == ' '
  {
    if n == 0 then "" else Spaces(n - 1) + " "
  }

  /** `format!("{:width}", s)` for a string argument: left-aligned, padded on
      the right with spaces up to `width` characters, never truncated. */
  function PadRight(s: string, width: nat): (r: string)
    ensures |r| == if |s| < width then width else |s|
    ensures r[..|s|] == s
    ensures forall i :: |s| <= i < |r| ==> r[i] == ' '
  {
    if |s| < width then s + Spaces(width - |s|) else s
  }

  predicate IsPrefix(p: string, s: string)
  {
    |p| <= |s| && s[..|p|] == p
  }

  /** Joining a non-empty list puts the first part, then (if any remain) the
      separator and the join of the rest. */
  lemma {:induction false} JoinCons(head: string, tail: seq<string>, sep: string)
    ensures Join([head] + tail, sep) == if |tail| == 0 then head else head + sep + Join(tail, sep)
  {
    assert ([head] + tail)[0] == head;
    assert ([head] + tail)[1..] == tail;
  }
}
