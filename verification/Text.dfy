/**
 The string operations of Python that the gateway uses.  Letter case is folded for ASCII
 only; white space is the full set that `str.isspace` accepts.
 */
module Text {

  datatype Option<+T> = None | Some(value: T)

  predicate IsSpace(c: char) {
    var n := c as int;
    || 0x09 <= n <= 0x0D || 0x1C <= n <= 0x20 || n == 0x85 || n == 0xA0 || n == 0x1680
    || 0x2000 <= n <= 0x200A || n == 0x2028 || n == 0x2029 || n == 0x202F || n == 0x205F || n == 0x3000
  }

  predicate NotSpace(c: char) {
    !IsSpace(c)
  }

  function LowerChar(c: char): char {
    if 'A' <= c <= 'Z' then (c as int + 32) as char else c
  }

  function UpperChar(c: char): char {
    if 'a' <= c <= 'z' then (c as int - 32) as char else c
  }

  function Lower(s: string): (r: string)
    ensures |r| == |s|
  {
    seq(|s|, i requires 0 <= i < |s| => LowerChar(s[i]))
  }

  function Upper(s: string): (r: string)
    ensures |r| == |s|
  {
    seq(|s|, i requires 0 <= i < |s| => UpperChar(s[i]))
  }

  function StripLeft(s: string, drop: char -> bool): string {
    if s != "" && drop(s[0]) then StripLeft(s[1..], drop) else s
  }

  function StripRight(s: string, drop: char -> bool): string {
    if s != "" && drop(s[|s| - 1]) then StripRight(s[..|s| - 1], drop) else s
  }

  /** `s.strip(chars)`, with the set of characters given by its membership test. */
  function StripChars(s: string, drop: char -> bool): string {
    StripRight(StripLeft(s, drop), drop)
  }

  /** `s.strip()` */
  function Strip(s: string): string {
    StripChars(s, IsSpace)
  }

  lemma NothingToStrip(s: string)
    requires s == "" || (!IsSpace(s[0]) && !IsSpace(s[|s| - 1]))
    ensures Strip(s) == s
  {
  }

  ghost predicate Only(s: string, p: char -> bool) {
    forall i :: 0 <= i < |s| ==> p(s[i])
  }

  /** s neither begins nor ends with a character that is dropped. */
  ghost predicate Tight(s: string, drop: char -> bool) {
    s == "" || (!drop(s[0]) && !drop(s[|s| - 1]))
  }

  lemma {:induction false} StripLeftOf(left: string, s: string, drop: char -> bool)
    requires Only(left, drop) && (s == "" || !drop(s[0]))
    ensures StripLeft(left + s, drop) == s
  {
    if left == "" {
      assert left + s == s;
    } else {
      assert (left + s)[1..] == left[1..] + s;
      StripLeftOf(left[1..], s, drop);
    }
  }

  lemma {:induction false} StripRightOf(s: string, right: string, drop: char -> bool)
    requires Only(right, drop) && (s == "" || !drop(s[|s| - 1]))
    ensures StripRight(s + right, drop) == s
  {
    if right == "" {
      assert s + right == s;
    } else {
      assert (s + right)[..|s + right| - 1] == s + right[..|right| - 1];
      StripRightOf(s, right[..|right| - 1], drop);
    }
  }

  lemma {:induction false} StripLeftAll(s: string, drop: char -> bool)
    requires Only(s, drop)
    ensures StripLeft(s, drop) == ""
  {
    if s != "" {
      StripLeftAll(s[1..], drop);
    }
  }

  /** Stripping takes away exactly the characters to be dropped at both ends. */
  lemma StripOf(left: string, s: string, right: string, drop: char -> bool)
    requires Only(left, drop) && Only(right, drop) && Tight(s, drop)
    ensures StripChars(left + s + right, drop) == s
  {
    if s == "" {
      assert forall i :: 0 <= i < |left + right| ==> drop((left + right)[i]);
      assert left + s + right == left + right;
      StripLeftAll(left + right, drop);
    } else {
      assert left + s + right == left + (s + right);
      StripLeftOf(left, s + right, drop);
      StripRightOf(s, right, drop);
    }
  }

  /** What lies between two characters that are not dropped is kept. */
  lemma {:induction false} StripKeeps(s: string, drop: char -> bool, i: nat, j: nat)
    requires i <= j < |s| && !drop(s[i]) && !drop(s[j])
    ensures |StripChars(s, drop)| > j - i
    decreases |s|
  {
    if drop(s[0]) {
      StripKeeps(s[1..], drop, i - 1, j - 1);
    } else if drop(s[|s| - 1]) {
      StripKeeps(s[..|s| - 1], drop, i, j);
    }
  }

  /** Stripping at the end leaves alone what ends in a character that is kept. */
  lemma {:induction false} StripRightKeeps(w: string, rest: string, drop: char -> bool)
    requires w != "" && !drop(w[|w| - 1])
    ensures w <= StripRight(w + rest, drop)
  {
    if rest == "" {
      assert w + rest == w;
    } else if drop(rest[|rest| - 1]) {
      assert (w + rest)[..|w + rest| - 1] == w + rest[..|rest| - 1];
      StripRightKeeps(w, rest[..|rest| - 1], drop);
    }
  }

  const UPPER_CASE := "ABCDEFGHIJKLMNOPQRSTUVWXYZ"
  const LOWER_CASE := "abcdefghijklmnopqrstuvwxyz"

  /** Folding exchanges the 26 letters and nothing else. */
  lemma CaseTable(k: nat)
    requires k < 26
    ensures LowerChar(UPPER_CASE[k]) == LOWER_CASE[k] && UpperChar(LOWER_CASE[k]) == UPPER_CASE[k]
  {
  }

  lemma OtherCharactersStay(c: char)
    ensures c !in UPPER_CASE ==> LowerChar(c) == c
    ensures c !in LOWER_CASE ==> UpperChar(c) == c
  {
    if 'A' <= c <= 'Z' {
      assert UPPER_CASE[c as int - 'A' as int] == c;
    }
    if 'a' <= c <= 'z' {
      assert LOWER_CASE[c as int - 'a' as int] == c;
    }
  }

  /** The printable ASCII characters are no white space; the blank and the control characters of a text are. */
  lemma SpaceTable(c: char)
    ensures c in " \t\n\r" ==> IsSpace(c)
    ensures '!' <= c <= '~' ==> !IsSpace(c)
  {
  }

  /** How many characters of s precede its first one that `stops` accepts. */
  function RunLength(s: string, stops: char -> bool): (n: nat)
    ensures n <= |s|
    ensures forall i :: 0 <= i < n ==> !stops(s[i])
    ensures n < |s| ==> stops(s[n])
  {
    if s == "" || stops(s[0]) then 0 else 1 + RunLength(s[1..], stops)
  }

  /** `s` with its first n characters removed, as the slice `s[n:]` does. */
  function Drop<T>(s: seq<T>, n: nat): seq<T> {
    if n <= |s| then s[n..] else []
  }

  predicate StartsWith<T(==)>(s: seq<T>, p: seq<T>) {
    p <= s
  }

  /** `p in s` */
  predicate Contains(s: string, p: string) {
    exists i :: 0 <= i <= |s| - |p| && OccursAt(s, p, i)
  }

  predicate OccursAt(s: string, p: string, i: int)
    requires 0 <= i <= |s| - |p|
  {
    s[i..i + |p|] == p
  }

  /** The part of s before the first c, or all of s. */
  function Before(s: string, c: char): string {
    if s == "" || s[0] == c then "" else [s[0]] + Before(s[1..], c)
  }

  /** The part of s after the first c, or nothing. */
  function After(s: string, c: char): string {
    if s == "" then "" else if s[0] == c then s[1..] else After(s[1..], c)
  }

  /** The part of s after the last c, or all of s: `s.split(c)[-1]`. */
  function AfterLast(s: string, c: char): string {
    if s == "" || s[|s| - 1] == c then "" else AfterLast(s[..|s| - 1], c) + [s[|s| - 1]]
  }

  lemma {:induction false} AfterShorter(s: string, c: char)
    ensures s != "" ==> |After(s, c)| < |s|
  {
    if s != "" && s[0] != c && |s| > 1 {
      AfterShorter(s[1..], c);
    }
  }

  /** Before and After take s apart at its first c. */
  lemma {:induction false} PartitionAt(s: string, c: char)
    ensures c !in Before(s, c)
    ensures c in s ==> s == Before(s, c) + [c] + After(s, c)
    ensures c !in s ==> Before(s, c) == s && After(s, c) == ""
  {
    if s != "" && s[0] != c {
      PartitionAt(s[1..], c);
      assert s == [s[0]] + s[1..];
    }
  }

  /** A string put together around a c whose left part has no c is taken apart the same way. */
  lemma {:induction false} PartitionOf(left: string, c: char, right: string)
    requires c !in left
    ensures Before(left + [c] + right, c) == left
    ensures After(left + [c] + right, c) == right
  {
    if left == "" {
      assert left + [c] + right == [c] + right;
    } else {
      assert (left + [c] + right)[1..] == left[1..] + [c] + right;
      PartitionOf(left[1..], c, right);
    }
  }

  /** A string is taken apart at its last c. */
  lemma {:induction false} AfterLastOf(left: string, c: char, right: string)
    requires c !in right
    ensures AfterLast(left + [c] + right, c) == right && AfterLast(right, c) == right
  {
    var s := left + [c] + right;
    if right != "" {
      var front := right[..|right| - 1];
      assert s[..|s| - 1] == left + [c] + front;
      AfterLastOf(left, c, front);
      assert right == front + [right[|right| - 1]];
    }
  }
}
