/** ASCII text operations shared by the models: trimming and lower-casing. */
module Text {

  datatype Option<+T> = None | Some(value: T)

  /** ASCII white space as JavaScript's and Rust's `trim` see it. */
  predicate Blank(c: char) { c == ' ' || 9 as char <= c <= 13 as char }

  function TrimLeft(s: string, blank: char -> bool): string {
    if s != [] && blank(s[0]) then TrimLeft(s[1..], blank) else s
  }

  function TrimRight(s: string, blank: char -> bool): string {
    if s != [] && blank(s[|s| - 1]) then TrimRight(s[..|s| - 1], blank) else s
  }

  function TrimBy(s: string, blank: char -> bool): string { TrimRight(TrimLeft(s, blank), blank) }

  function Trim(s: string): string { TrimBy(s, Blank) }

  predicate TrimmedBy(s: string, blank: char -> bool) {
    s == [] || (!blank(s[0]) && !blank(s[|s| - 1]))
  }

  lemma {:induction false} TrimRightKeepsHead(s: string, blank: char -> bool)
    ensures var r := TrimRight(s, blank); r <= s && (r == [] || !blank(r[|r| - 1]))
    decreases |s|
  {
    if s != [] && blank(s[|s| - 1]) {
      TrimRightKeepsHead(s[..|s| - 1], blank);
    }
  }

  lemma {:induction false} TrimLeftHead(s: string, blank: char -> bool)
    ensures var r := TrimLeft(s, blank); r == [] || !blank(r[0])
    decreases |s|
  {
    if s != [] && blank(s[0]) {
      TrimLeftHead(s[1..], blank);
    }
  }

  /** Trimming removes blanks at both ends, and a second trim changes nothing. */
  lemma TrimTrims(s: string, blank: char -> bool)
    ensures TrimmedBy(TrimBy(s, blank), blank)
    ensures TrimBy(TrimBy(s, blank), blank) == TrimBy(s, blank)
  {
    TrimLeftHead(s, blank);
    TrimRightKeepsHead(TrimLeft(s, blank), blank);
  }

  lemma TrimmedIsFixed(s: string, blank: char -> bool)
    requires TrimmedBy(s, blank)
    ensures TrimBy(s, blank) == s
  {
  }

  predicate AllBlank(s: string, blank: char -> bool) { forall i :: 0 <= i < |s| ==> blank(s[i]) }

  lemma {:induction false} TrimLeftOf(pre: string, rest: string, blank: char -> bool)
    requires AllBlank(pre, blank) && (rest == [] || !blank(rest[0]))
    ensures TrimLeft(pre + rest, blank) == rest
    decreases |pre|
  {
    if pre == [] {
      assert pre + rest == rest;
    } else {
      assert (pre + rest)[0] == pre[0] && (pre + rest)[1..] == pre[1..] + rest;
      TrimLeftOf(pre[1..], rest, blank);
    }
  }

  lemma {:induction false} TrimRightOf(rest: string, post: string, blank: char -> bool)
    requires AllBlank(post, blank) && (rest == [] || !blank(rest[|rest| - 1]))
    ensures TrimRight(rest + post, blank) == rest
    decreases |post|
  {
    if post == [] {
      assert rest + post == rest;
    } else {
      var s := rest + post;
      assert s[|s| - 1] == post[|post| - 1] && s[..|s| - 1] == rest + post[..|post| - 1];
      TrimRightOf(rest, post[..|post| - 1], blank);
    }
  }

  /** What trimming is: of blanks, a core without blanks at its ends, and blanks, it leaves the core. */
  lemma TrimOf(pre: string, core: string, post: string, blank: char -> bool)
    requires AllBlank(pre, blank) && AllBlank(post, blank) && TrimmedBy(core, blank)
    ensures TrimBy(pre + core + post, blank) == core
  {
    if core == [] {
      assert pre + core + post == (pre + post) + [];
      TrimLeftOf(pre + post, [], blank);
    } else {
      assert pre + core + post == pre + (core + post);
      TrimLeftOf(pre, core + post, blank);
      TrimRightOf(core, post, blank);
    }
  }

  lemma {:induction false} TrimLeftSplits(s: string, blank: char -> bool) returns (pre: string)
    ensures s == pre + TrimLeft(s, blank) && AllBlank(pre, blank)
    decreases |s|
  {
    pre := [];
    if s != [] && blank(s[0]) {
      var rest := TrimLeftSplits(s[1..], blank);
      pre := [s[0]] + rest;
      assert s == [s[0]] + s[1..];
    }
  }

  lemma {:induction false} TrimRightSplits(s: string, blank: char -> bool) returns (post: string)
    ensures s == TrimRight(s, blank) + post && AllBlank(post, blank)
    decreases |s|
  {
    post := [];
    if s != [] && blank(s[|s| - 1]) {
      var rest := TrimRightSplits(s[..|s| - 1], blank);
      post := rest + [s[|s| - 1]];
      assert s == s[..|s| - 1] + [s[|s| - 1]];
    }
  }

  /** Every text is such a sum, with what trimming leaves as its core. */
  lemma TrimSplits(s: string, blank: char -> bool) returns (pre: string, post: string)
    ensures s == pre + TrimBy(s, blank) + post
    ensures AllBlank(pre, blank) && AllBlank(post, blank) && TrimmedBy(TrimBy(s, blank), blank)
  {
    pre := TrimLeftSplits(s, blank);
    post := TrimRightSplits(TrimLeft(s, blank), blank);
    TrimTrims(s, blank);
  }

  /** Nothing is left exactly of a text of blanks. */
  lemma TrimIsEmptyIff(s: string, blank: char -> bool)
    ensures TrimBy(s, blank) == [] <==> AllBlank(s, blank)
  {
    if AllBlank(s, blank) {
      assert s + [] + [] == s;
      TrimOf(s, [], [], blank);
    } else {
      var pre, post := TrimSplits(s, blank);
    }
  }

  function LowerChar(c: char): char {
    if 'A' <= c <= 'Z' then (c as int + 32) as char else c
  }

  function Lower(s: string): string { seq(|s|, i requires 0 <= i < |s| => LowerChar(s[i])) }

  predicate IsLower(s: string) { forall c :: c in s ==> !('A' <= c <= 'Z') }

  lemma LowerIsLower(s: string)
    ensures |Lower(s)| == |s| && IsLower(Lower(s)) && Lower(Lower(s)) == Lower(s)
    ensures forall i :: 0 <= i < |s| ==> Blank(Lower(s)[i]) == Blank(s[i])
  {
  }

  /** A capital letter becomes the small letter at its place in the alphabet; nothing else changes. */
  lemma LowerOf(s: string, i: nat)
    requires i < |s|
    ensures |Lower(s)| == |s|
    ensures 'A' <= s[i] <= 'Z' ==> Lower(s)[i] as int - 'a' as int == s[i] as int - 'A' as int
    ensures !('A' <= s[i] <= 'Z') ==> Lower(s)[i] == s[i]
  {
  }

  lemma LowerIsFixed(s: string)
    requires IsLower(s)
    ensures Lower(s) == s
  {
    forall i | 0 <= i < |s| ensures Lower(s)[i] == s[i] { assert s[i] in s; }
  }
}
