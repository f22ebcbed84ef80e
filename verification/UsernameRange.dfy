/** The probe script's username ranges: `f1000000-f1000005` and the like, over ASCII text. */
module UsernameRange {
  import opened Text
  import opened Decimal

  datatype RangeError = NoSharedPrefix(spec: string) | SuffixNotNumeric(spec: string) | StartAfterEnd(spec: string)

  datatype Result<+T> = Ok(value: T) | Err(error: RangeError)

  /** ASCII white space as Python's `str.strip` sees it. */
  predicate PyBlank(c: char) { c == ' ' || 9 as char <= c <= 13 as char || 28 as char <= c <= 31 as char }

  function Strip(s: string): string { TrimBy(s, PyBlank) }

  /** The position of the first hyphen, or the length. */
  function FirstHyphen(s: string): (i: nat)
    ensures i <= |s| && (i < |s| ==> s[i] == '-') && (i == |s| <==> '-' !in s)
  {
    if s == [] || s[0] == '-' then 0 else 1 + FirstHyphen(s[1..])
  }

  /** The length of the longest common prefix. */
  predicate IsSharedPrefix(a: string, b: string, n: nat) {
    n <= |a| && n <= |b| && a[..n] == b[..n] && (n < |a| && n < |b| ==> a[n] != b[n])
  }

  method SharedPrefixLength(left: string, right: string) returns (length: nat)
    ensures IsSharedPrefix(left, right, length)
  {
    length := 0;
    while length < |left| && length < |right|
      invariant length <= |left| && length <= |right| && left[..length] == right[..length]
    {
      if left[length] != right[length] {
        break;
      }
      length := length + 1;
    }
  }

  function SharedPrefix(a: string, b: string): (n: nat)
    ensures IsSharedPrefix(a, b, n)
  {
    if a == [] || b == [] || a[0] != b[0] then 0
    else
      assert a == [a[0]] + a[1..] && b == [b[0]] + b[1..];
      1 + SharedPrefix(a[1..], b[1..])
  }

  lemma SharedPrefixUnique(a: string, b: string, n: nat, m: nat)
    requires IsSharedPrefix(a, b, n) && IsSharedPrefix(a, b, m)
    ensures n == m
  {
  }

  predicate IsNumeral(s: string) { s != [] && AllDigits(s) }

  /** The names of a range, in order. */
  function Names(prefix: string, left: nat, right: nat, width: nat): seq<string>
    requires left <= right
  {
    seq(right - left + 1, i requires 0 <= i <= right - left => prefix + Padded(left + i, width))
  }

  function Max(a: nat, b: nat): nat { if a < b then b else a }

  /** The range between two ends, of a spec that the error messages quote. */
  function ExpandRange(spec: string, start: string, end: string): Result<seq<string>> {
    var n := SharedPrefix(start, end);
    if n == 0 then Err(NoSharedPrefix(spec))
    else if !IsNumeral(start[n..]) || !IsNumeral(end[n..]) then Err(SuffixNotNumeric(spec))
    else if Parse(start[n..]) > Parse(end[n..]) then Err(StartAfterEnd(spec))
    else Ok(Names(start[..n], Parse(start[n..]), Parse(end[n..]), Max(|start| - n, |end| - n)))
  }

  /** One stripped spec: a plain name, or a range split at its first hyphen. */
  function ExpandSpec(spec: string): Result<seq<string>> {
    if spec == [] then Ok([])
    else
      var h := FirstHyphen(spec);
      if h == |spec| then Ok([spec]) else ExpandRange(spec, spec[..h], spec[h + 1..])
  }

  /** What each spec expands to. */
  function Expansions(specs: seq<string>): seq<Result<seq<string>>> {
    seq(|specs|, i requires 0 <= i < |specs| => ExpandSpec(Strip(specs[i])))
  }

  /** Expansions one after the other; the first failure fails them all. */
  function Gather(results: seq<Result<seq<string>>>): Result<seq<string>> {
    if results == [] then Ok([])
    else
      match Gather(results[..|results| - 1])
      case Err(e) => Err(e)
      case Ok(before) =>
        match results[|results| - 1]
        case Err(e) => Err(e)
        case Ok(names) => Ok(before + names)
  }

  function ExpandAll(specs: seq<string>): Result<seq<string>> { Gather(Expansions(specs)) }

  lemma {:induction false} FailsOnceFailed(results: seq<Result<seq<string>>>, i: nat)
    requires i <= |results| && Gather(results[..i]).Err?
    ensures Gather(results) == Gather(results[..i])
  {
    if i < |results| {
      var front := results[..|results| - 1];
      assert front[..i] == results[..i];
      FailsOnceFailed(front, i);
    } else {
      assert results[..i] == results;
    }
  }

  lemma GatherOneMore(front: seq<Result<seq<string>>>, last: Result<seq<string>>)
    ensures Gather(front + [last])
         == if Gather(front).Err? then Gather(front)
            else if last.Err? then Err(last.error) else Ok(Gather(front).value + last.value)
  {
    assert (front + [last])[..|front|] == front;
  }

  function Concat(lists: seq<seq<string>>): seq<string> {
    if lists == [] then [] else Concat(lists[..|lists| - 1]) + lists[|lists| - 1]
  }

  /** If every spec expands, the result is their expansions one after the other. */
  lemma {:induction false} ExpansionsAreJoined(results: seq<Result<seq<string>>>, lists: seq<seq<string>>)
    requires |lists| == |results| && forall i :: 0 <= i < |results| ==> results[i] == Ok(lists[i])
    ensures Gather(results) == Ok(Concat(lists))
    decreases |results|
  {
    if results != [] {
      ExpansionsAreJoined(results[..|results| - 1], lists[..|lists| - 1]);
    }
  }

  /** If some spec fails, the first to fail decides the error. */
  lemma FirstFailureDecides(results: seq<Result<seq<string>>>, i: nat, lists: seq<seq<string>>)
    requires i < |results| && |lists| == i && results[i].Err?
    requires forall j :: 0 <= j < i ==> results[j] == Ok(lists[j])
    ensures Gather(results) == Err(results[i].error)
  {
    ExpansionsAreJoined(results[..i], lists);
    assert results[..i + 1] == results[..i] + [results[i]];
    GatherOneMore(results[..i], results[i]);
    FailsOnceFailed(results, i + 1);
  }

  /** The inner loop: append the names of a range. */
  method AppendNames(usernames: seq<string>, prefix: string, left: nat, right: nat, width: nat)
    returns (out: seq<string>)
    requires left <= right
    ensures out == usernames + Names(prefix, left, right, width)
  {
    out := usernames;
    for value := left to right + 1
      invariant out == usernames + Names(prefix, left, right, width)[..value - left]
    {
      out := out + [prefix + Padded(value, width)];
    }
    assert Names(prefix, left, right, width)[..right + 1 - left] == Names(prefix, left, right, width);
  }

  /** Append the range between two ends, or fail. */
  method AppendRange(usernames: seq<string>, spec: string, start: string, end: string)
    returns (out: Result<seq<string>>)
    ensures match ExpandRange(spec, start, end)
            case Ok(names) => out == Ok(usernames + names)
            case Err(e) => out == Err(e)
  {
    var n := SharedPrefixLength(start, end);
    SharedPrefixUnique(start, end, n, SharedPrefix(start, end));
    if n == 0 {
      return Err(NoSharedPrefix(spec));
    }
    var a, b := start[n..], end[n..];
    if !IsNumeral(a) || !IsNumeral(b) {
      return Err(SuffixNotNumeric(spec));
    }
    var left, right := Parse(a), Parse(b);
    if left > right {
      return Err(StartAfterEnd(spec));
    }
    var names := AppendNames(usernames, start[..n], left, right, Max(|start| - n, |end| - n));
    out := Ok(names);
  }

  lemma SpecIsRange(spec: string, h: nat)
    requires spec != [] && h == FirstHyphen(spec) < |spec|
    ensures ExpandSpec(spec) == ExpandRange(spec, spec[..h], spec[h + 1..])
  {
  }

  /** The body of the outer loop: append what one spec stands for, or fail. */
  method AppendSpec(usernames: seq<string>, spec: string) returns (out: Result<seq<string>>)
    ensures match ExpandSpec(spec)
            case Ok(names) => out == Ok(usernames + names)
            case Err(e) => out == Err(e)
  {
    if spec == [] {
      assert usernames + [] == usernames;
      return Ok(usernames);
    }
    var h := FirstHyphen(spec);
    if h == |spec| {
      return Ok(usernames + [spec]);
    }
    SpecIsRange(spec, h);
    out := AppendRange(usernames, spec, spec[..h], spec[h + 1..]);
  }

  /** `expand_username_specs`. */
  method ExpandUsernameSpecs(specs: seq<string>) returns (result: Result<seq<string>>)
    ensures result == ExpandAll(specs)
  {
    var usernames: seq<string> := [];
    ghost var results := Expansions(specs);
    for i := 0 to |specs|
      invariant Gather(results[..i]) == Ok(usernames)
    {
      var next := AppendSpec(usernames, Strip(specs[i]));
      GatherOneMore(results[..i], results[i]);
      assert results[..i + 1] == results[..i] + [results[i]];
      if next.Err? {
        FailsOnceFailed(results, i + 1);
        return next;
      }
      usernames := next.value;
    }
    assert results[..|specs|] == results;
    result := Ok(usernames);
  }

  /** A spec without a hyphen stands for itself, and one of blanks for nothing. */
  lemma PlainSpec(pre: string, core: string, post: string)
    requires AllBlank(pre, PyBlank) && AllBlank(post, PyBlank) && TrimmedBy(core, PyBlank) && '-' !in core
    ensures ExpandSpec(Strip(pre + core + post)) == Ok(if core == [] then [] else [core])
  {
    TrimOf(pre, core, post, PyBlank);
  }

  /** Which check a range fails first: the prefix, the digits, the order; the error quotes the spec. */
  lemma RangeErrors(spec: string, start: string, end: string)
    ensures var n := SharedPrefix(start, end);
            ExpandRange(spec, start, end).Err? ==>
              ExpandRange(spec, start, end).error
              == if start == [] || end == [] || start[0] != end[0] then NoSharedPrefix(spec)
                 else if !IsNumeral(start[n..]) || !IsNumeral(end[n..]) then SuffixNotNumeric(spec)
                 else StartAfterEnd(spec)
  {
  }

  // ---------------------------------------------------------------------------------------------
  // What a range contains.
  // ---------------------------------------------------------------------------------------------

  lemma {:induction false} Pow10Grows(n: nat, m: nat)
    requires n <= m
    ensures Pow10(n) <= Pow10(m)
    decreases m
  {
    if n < m {
      Pow10Grows(n, m - 1);
    }
  }

  lemma SuffixesFit(a: string, b: string)
    requires IsNumeral(a) && IsNumeral(b)
    ensures Parse(a) < Pow10(Max(|a|, |b|)) && Parse(b) < Pow10(Max(|a|, |b|))
  {
    ParseBound(a);
    ParseBound(b);
    Pow10Grows(|a|, Max(|a|, |b|));
    Pow10Grows(|b|, Max(|a|, |b|));
  }

  /** A name of the range: the prefix and a numeral of the width with a value between the ends. */
  ghost predicate InRange(s: string, prefix: string, left: nat, right: nat, width: nat) {
    && |s| == |prefix| + width && prefix <= s && AllDigits(s[|prefix|..])
    && left <= Parse(s[|prefix|..]) <= right
  }

  lemma NameIsInRange(prefix: string, left: nat, right: nat, width: nat, i: nat)
    requires left <= right < Pow10(width) && width > 0 && i <= right - left
    ensures InRange(Names(prefix, left, right, width)[i], prefix, left, right, width)
  {
    var t := Padded(left + i, width);
    assert AllDigits(t) && |t| == width && Parse(t) == left + i by { PaddedParses(left + i, width); }
    assert Names(prefix, left, right, width)[i] == prefix + t;
    assert (prefix + t)[|prefix|..] == t;
  }

  lemma InRangeIsName(prefix: string, left: nat, right: nat, width: nat, s: string)
    requires left <= right < Pow10(width) && width > 0 && InRange(s, prefix, left, right, width)
    ensures s == Names(prefix, left, right, width)[Parse(s[|prefix|..]) - left]
  {
    var t := s[|prefix|..];
    PaddedParses(Parse(t), width);
    LexIsNumeric(t, Padded(Parse(t), width));
    assert s == prefix + t;
  }

  lemma PaddedIncreases(x: nat, y: nat, width: nat)
    requires x < y < Pow10(width) && width > 0
    ensures LexLess(Padded(x, width), Padded(y, width))
  {
    PaddedParses(x, width);
    PaddedParses(y, width);
    LexIsNumeric(Padded(x, width), Padded(y, width));
  }

  lemma NameAt(prefix: string, left: nat, right: nat, width: nat, i: nat)
    requires left <= right && i <= right - left
    ensures Names(prefix, left, right, width)[i] == prefix + Padded(left + i, width)
  {
  }

  lemma BehindPrefix(prefix: string, a: string, b: string)
    requires LexLess(a, b)
    ensures LexLess(prefix + a, prefix + b)
  {
    LexPrefix(prefix, a, b);
  }

  lemma NamesIncrease(prefix: string, left: nat, right: nat, width: nat, i: nat, j: nat)
    requires left <= right < Pow10(width) && width > 0 && i < j <= right - left
    ensures LexLess(Names(prefix, left, right, width)[i], Names(prefix, left, right, width)[j])
  {
    NameAt(prefix, left, right, width, i);
    NameAt(prefix, left, right, width, j);
    PaddedIncreases(left + i, left + j, width);
    BehindPrefix(prefix, Padded(left + i, width), Padded(left + j, width));
  }

  /** The range lists exactly those names, each once, in increasing text order. */
  lemma NamesAreExact(prefix: string, left: nat, right: nat, width: nat)
    requires left <= right < Pow10(width) && width > 0
    ensures forall s :: s in Names(prefix, left, right, width) <==> InRange(s, prefix, left, right, width)
    ensures forall i, j :: 0 <= i < j <= right - left ==>
              LexLess(Names(prefix, left, right, width)[i], Names(prefix, left, right, width)[j])
  {
    var out := Names(prefix, left, right, width);
    forall i | 0 <= i < |out| ensures InRange(out[i], prefix, left, right, width) {
      NameIsInRange(prefix, left, right, width, i);
    }
    forall s | InRange(s, prefix, left, right, width) ensures s in out {
      InRangeIsName(prefix, left, right, width, s);
    }
    forall i, j | 0 <= i < j <= right - left ensures LexLess(out[i], out[j]) {
      NamesIncrease(prefix, left, right, width, i, j);
    }
  }

  /** A spec that names a range and passes every check. */
  predicate GoodRange(start: string, end: string) {
    var n := SharedPrefix(start, end);
    && n > 0 && IsNumeral(start[n..]) && IsNumeral(end[n..]) && Parse(start[n..]) <= Parse(end[n..])
  }

  function RangeNames(start: string, end: string): seq<string>
    requires GoodRange(start, end)
  {
    var n := SharedPrefix(start, end);
    Names(start[..n], Parse(start[n..]), Parse(end[n..]), Max(|start| - n, |end| - n))
  }

  lemma SpecOfRange(start: string, end: string)
    requires '-' !in start
    ensures ExpandSpec(start + "-" + end).Ok? <==> GoodRange(start, end)
    ensures GoodRange(start, end) ==> ExpandSpec(start + "-" + end) == Ok(RangeNames(start, end))
  {
    var spec := start + "-" + end;
    HyphenAfter(start, end);
    assert spec[..|start|] == start && spec[|start| + 1..] == end;
    assert ExpandSpec(spec) == ExpandRange(spec, start, end);
  }

  lemma {:induction false} HyphenAfter(start: string, end: string)
    requires '-' !in start
    ensures FirstHyphen(start + "-" + end) == |start|
  {
    if start != [] {
      assert (start + "-" + end)[1..] == start[1..] + "-" + end;
      HyphenAfter(start[1..], end);
    }
  }

  /** Behind a common prefix, lying between in number is lying between in text. */
  lemma BetweenEnds(prefix: string, a: string, t: string, b: string)
    requires AllDigits(a) && AllDigits(t) && AllDigits(b) && |a| == |t| == |b|
    ensures Parse(a) <= Parse(t) <= Parse(b)
       <==> LexAtMost(prefix + a, prefix + t) && LexAtMost(prefix + t, prefix + b)
  {
    AtMostBehindPrefix(prefix, a, t);
    AtMostBehindPrefix(prefix, t, b);
  }

  lemma AtMostBehindPrefix(prefix: string, a: string, b: string)
    requires AllDigits(a) && AllDigits(b) && |a| == |b|
    ensures LexAtMost(prefix + a, prefix + b) <==> Parse(a) <= Parse(b)
  {
    LexPrefix(prefix, a, b);
    LexIsNumeric(a, b);
    assert (prefix + a)[|prefix|..] == a && (prefix + b)[|prefix|..] == b;
  }

  /** A string of the ends' length that has their prefix and digits after it, and lies between them. */
  ghost predicate Between(s: string, start: string, end: string, n: nat)
    requires n <= |start| == |end|
  {
    |s| == |start| && start[..n] <= s && AllDigits(s[n..]) && LexAtMost(start, s) && LexAtMost(s, end)
  }

  lemma BetweenIsInRange(s: string, start: string, end: string, n: nat)
    requires n <= |start| == |end| && start[..n] == end[..n] && AllDigits(start[n..]) && AllDigits(end[n..])
    ensures Between(s, start, end, n)
       <==> InRange(s, start[..n], Parse(start[n..]), Parse(end[n..]), |start| - n)
  {
    var prefix, a, b := start[..n], start[n..], end[n..];
    assert start == prefix + a && end == prefix + b;
    if |s| == |start| && prefix <= s && AllDigits(s[n..]) {
      assert s == prefix + s[n..];
      BetweenEnds(prefix, a, s[n..], b);
    }
  }

  /**
   * Main result: for ends of one length the range is exactly the increasing, duplicate-free list of
   * all strings made of the common prefix and digits that lie between the ends in text order.
   */
  lemma EqualLengthRangeIsExact(start: string, end: string)
    requires GoodRange(start, end) && |start| == |end|
    ensures var out, n := RangeNames(start, end), SharedPrefix(start, end);
            && (forall s :: s in out <==> Between(s, start, end, n))
            && (forall i, j :: 0 <= i < j < |out| ==> LexLess(out[i], out[j]))
            && start in out && end in out
  {
    var n := SharedPrefix(start, end);
    SuffixesFit(start[n..], end[n..]);
    NamesAreExact(start[..n], Parse(start[n..]), Parse(end[n..]), |start| - n);
    forall s ensures Between(s, start, end, n)
                <==> InRange(s, start[..n], Parse(start[n..]), Parse(end[n..]), |start| - n)
    {
      BetweenIsInRange(s, start, end, n);
    }
    EndsAreInRange(start, end, n);
  }

  lemma EndsAreInRange(start: string, end: string, n: nat)
    requires n <= |start| == |end| && start[..n] == end[..n] && AllDigits(start[n..]) && AllDigits(end[n..])
    requires Parse(start[n..]) <= Parse(end[n..])
    ensures InRange(start, start[..n], Parse(start[n..]), Parse(end[n..]), |start| - n)
    ensures InRange(end, start[..n], Parse(start[n..]), Parse(end[n..]), |start| - n)
  {
  }

  /** With unequal lengths the shorter end is padded, so each end is listed only if it is not shorter. */
  lemma EndsListedIffNotShorter(start: string, end: string)
    requires GoodRange(start, end)
    ensures start in RangeNames(start, end) <==> |start| >= |end|
    ensures end in RangeNames(start, end) <==> |end| >= |start|
  {
    var n := SharedPrefix(start, end);
    var prefix, a, b := start[..n], start[n..], end[n..];
    SuffixesFit(a, b);
    NamesAreExact(prefix, Parse(a), Parse(b), Max(|a|, |b|));
    assert start == prefix + a && end == prefix + b;
  }
}
