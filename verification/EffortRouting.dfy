/** Normalisation of the effort-routing settings of the three model families. */
module EffortRouting {
  import opened Text
  import opened StableSort

  /** A value of unknown type read from JSON: a string, or anything else. */
  datatype Raw = Str(text: string) | NotString

  type RawEntry = (string, Raw)
  type Entry = (string, Option<string>)

  datatype RawFamily = RawFamily(sourceToTarget: seq<RawEntry>, defaultTarget: Raw)

  datatype Family = Family(sourceToTarget: map<string, Option<string>>, defaultTarget: Option<string>)

  datatype FallbackMode = ClampDown | Omit

  datatype RawSettings = RawSettings(
    fallbackMode: Raw, opus: Option<RawFamily>, sonnet: Option<RawFamily>, haiku: Option<RawFamily>)

  datatype Settings = Settings(fallbackMode: FallbackMode, opus: Family, sonnet: Family, haiku: Family)

  /** A collation: whether one string sorts no later than another. */
  type Collation = (string, string) -> bool

  function NormalText(s: string): string { Lower(Trim(s)) }

  function NormalizeNullableEffort(value: Raw): Option<string> {
    if value.Str? && |Trim(value.text)| > 0 then Some(NormalText(value.text)) else None
  }

  function Mapped(entries: seq<RawEntry>): seq<Entry> {
    seq(|entries|, i requires 0 <= i < |entries| => (NormalText(entries[i].0), NormalizeNullableEffort(entries[i].1)))
  }

  function ByKey(collation: Collation): Order<Entry> { (a: Entry, b: Entry) => collation(a.0, b.0) }

  predicate Named(e: Entry) { |e.0| > 0 }

  /** `Object.fromEntries` (section 20.1.2.7 of ECMA-262): later entries overwrite earlier ones. */
  function FromEntries(entries: seq<Entry>): map<string, Option<string>> {
    if entries == [] then map[]
    else
      var last := entries[|entries| - 1];
      FromEntries(entries[..|entries| - 1])[last.0 := last.1]
  }

  function NormalizeEntries(entries: seq<RawEntry>, collation: Collation): map<string, Option<string>> {
    FromEntries(Sort(ByKey(collation), Filter(Mapped(entries), Named)))
  }

  function NormalizeFamily(value: Option<RawFamily>, collation: Collation): Family {
    if value.None? then Family(map[], None)
    else
      var entries, target := value.value.sourceToTarget, value.value.defaultTarget;
      Family(NormalizeEntries(entries, collation), NormalizeNullableEffort(target))
  }

  function NormalizeSettings(value: RawSettings, collation: Collation): Settings {
    Settings(if value.fallbackMode == Str("omit") then Omit else ClampDown,
             NormalizeFamily(value.opus, collation),
             NormalizeFamily(value.sonnet, collation),
             NormalizeFamily(value.haiku, collation))
  }

  // ---------------------------------------------------------------------------------------------
  // Which entry survives.
  // ---------------------------------------------------------------------------------------------

  function OfKey(entries: seq<Entry>, k: string): seq<Entry> { Filter(entries, (e: Entry) => e.0 == k) }

  lemma {:induction false} FilterAppend<T(!new)>(s: seq<T>, x: T, keep: T -> bool)
    ensures Filter(s + [x], keep) == Filter(s, keep) + if keep(x) then [x] else []
  {
    if s == [] {
      assert s + [x] == [x] && [x][1..] == [];
    } else {
      assert (s + [x])[1..] == s[1..] + [x];
      FilterAppend(s[1..], x, keep);
    }
  }

  /** An object built from entries holds, at each key, the last of that key's entries. */
  lemma {:induction false} FromEntriesByKey(entries: seq<Entry>, k: string)
    ensures k in FromEntries(entries) <==> OfKey(entries, k) != []
    ensures OfKey(entries, k) != [] ==> FromEntries(entries)[k] == OfKey(entries, k)[|OfKey(entries, k)| - 1].1
  {
    if entries != [] {
      var front, last := entries[..|entries| - 1], entries[|entries| - 1];
      assert entries == front + [last];
      FromEntriesByKey(front, k);
      FilterAppend(front, last, (e: Entry) => e.0 == k);
    }
  }

  lemma {:induction false} FilterWithin<T(!new)>(s: seq<T>, narrow: T -> bool, wide: T -> bool)
    requires forall x :: narrow(x) ==> wide(x)
    ensures Filter(Filter(s, wide), narrow) == Filter(s, narrow)
  {
    if s != [] {
      FilterWithin(s[1..], narrow, wide);
      assert wide(s[0]) ==> ([s[0]] + Filter(s[1..], wide))[1..] == Filter(s[1..], wide);
    }
  }

  /** A stable rearrangement by a collation that ties equal keys keeps each key's entries in order. */
  lemma StableKeepsKey(collation: Collation, before: seq<Entry>, after: seq<Entry>, k: string)
    requires collation(k, k) && Stable(ByKey(collation), before, after)
    ensures OfKey(after, k) == OfKey(before, k)
  {
    var x: Entry := (k, None);
    var le := ByKey(collation);
    var tied := (y: Entry) => Tied(le, x, y);
    var same := (e: Entry) => e.0 == k;
    assert TiedWith(le, x, after) == TiedWith(le, x, before);
    FilterWithin(after, same, tied);
    FilterWithin(before, same, tied);
  }

  /** The last entry whose normalised key is k. */
  predicate IsLast(entries: seq<RawEntry>, i: nat, k: string) {
    && i < |entries| && NormalText(entries[i].0) == k
    && forall j :: i < j < |entries| ==> NormalText(entries[j].0) != k
  }

  lemma IsLastInFront(entries: seq<RawEntry>, k: string, i: nat)
    requires entries != [] && NormalText(entries[|entries| - 1].0) != k
    ensures IsLast(entries, i, k) <==> IsLast(entries[..|entries| - 1], i, k)
  {
  }

  lemma {:induction false} LastOfKey(entries: seq<RawEntry>, k: string)
    ensures OfKey(Mapped(entries), k) != [] <==> exists i: nat :: IsLast(entries, i, k)
    ensures forall i: nat :: IsLast(entries, i, k) ==>
              var s := OfKey(Mapped(entries), k);
              s != [] && s[|s| - 1] == (k, NormalizeNullableEffort(entries[i].1))
    decreases |entries|
  {
    if entries != [] {
      var n := |entries| - 1;
      var front, last := entries[..n], entries[n];
      var e := (NormalText(last.0), NormalizeNullableEffort(last.1));
      assert Mapped(entries) == Mapped(front) + [e];
      FilterAppend(Mapped(front), e, (x: Entry) => x.0 == k);
      if e.0 == k {
        assert IsLast(entries, n, k);
        assert forall i: nat :: IsLast(entries, i, k) ==> i == n;
      } else {
        LastOfKey(front, k);
        forall i: nat ensures IsLast(entries, i, k) <==> IsLast(front, i, k) {
          IsLastInFront(entries, k, i);
        }
        assert OfKey(Mapped(entries), k) == OfKey(Mapped(front), k);
      }
    }
  }

  /**
   * Whatever stable rearrangement the sort performs, the result holds at each non-empty key the
   * normalised target of the last original entry with that key, and nothing else.
   */
  lemma LastEntryWins(entries: seq<RawEntry>, collation: Collation, after: seq<Entry>, k: string)
    requires collation(k, k)
    requires Stable(ByKey(collation), Filter(Mapped(entries), Named), after)
    ensures k in FromEntries(after) <==> k != "" && exists i: nat :: IsLast(entries, i, k)
    ensures forall i: nat :: k != "" && IsLast(entries, i, k) ==>
              k in FromEntries(after) && FromEntries(after)[k] == NormalizeNullableEffort(entries[i].1)
  {
    StableKeepsKey(collation, Filter(Mapped(entries), Named), after, k);
    FromEntriesByKey(after, k);
    NamedOfKey(Mapped(entries), k);
    LastOfKey(entries, k);
  }

  lemma {:induction false} FilterNone<T(!new)>(s: seq<T>, keep: T -> bool)
    requires forall x :: x in s ==> !keep(x)
    ensures Filter(s, keep) == []
  {
    if s != [] {
      FilterNone(s[1..], keep);
    }
  }

  /** Dropping the entries without a name changes nothing for the others. */
  lemma NamedOfKey(entries: seq<Entry>, k: string)
    ensures OfKey(Filter(entries, Named), k) == if k == "" then [] else OfKey(entries, k)
  {
    var kept := Filter(entries, Named);
    if k != "" {
      FilterWithin(entries, (e: Entry) => e.0 == k, Named);
    } else {
      assert forall e :: e in kept ==> Named(e);
      FilterNone(kept, (e: Entry) => e.0 == k);
    }
  }

  lemma ByKeyIsTotal(collation: Collation)
    requires Total(collation)
    ensures Total(ByKey(collation))
  {
    var le := ByKey(collation);
    forall a: Entry, b: Entry ensures le(a, b) || le(b, a) {
      assert collation(a.0, b.0) || collation(b.0, a.0);
    }
    forall a: Entry, b: Entry, c: Entry | le(a, b) && le(b, c) ensures le(a, c) {
      assert collation(a.0, b.0) && collation(b.0, c.0);
    }
  }

  /** The same for the normaliser itself, under any total collation. */
  lemma NormalizerLastEntryWins(entries: seq<RawEntry>, collation: Collation, k: string)
    requires Total(collation)
    ensures k in NormalizeEntries(entries, collation) <==> k != "" && exists i: nat :: IsLast(entries, i, k)
    ensures forall i: nat :: k != "" && IsLast(entries, i, k) ==>
              && k in NormalizeEntries(entries, collation)
              && NormalizeEntries(entries, collation)[k] == NormalizeNullableEffort(entries[i].1)
  {
    ByKeyIsTotal(collation);
    SortIsStable(ByKey(collation), Filter(Mapped(entries), Named));
    LastEntryWins(entries, collation, Sort(ByKey(collation), Filter(Mapped(entries), Named)), k);
  }

  /** What a key or a target is normalised to: without the blanks around it, in small letters. */
  lemma NormalTextOf(pre: string, core: string, post: string)
    requires AllBlank(pre, Blank) && AllBlank(post, Blank) && TrimmedBy(core, Blank)
    ensures NormalText(pre + core + post) == Lower(core)
    ensures NormalizeNullableEffort(Str(pre + core + post)) == if core == [] then None else Some(Lower(core))
    ensures NormalizeNullableEffort(NotString) == None
  {
    TrimOf(pre, core, post, Blank);
  }

  datatype FamilyName = Opus | Sonnet | Haiku

  function RawOf(value: RawSettings, name: FamilyName): Option<RawFamily> {
    match name
    case Opus => value.opus
    case Sonnet => value.sonnet
    case Haiku => value.haiku
  }

  function FamilyOf(settings: Settings, name: FamilyName): Family {
    match name
    case Opus => settings.opus
    case Sonnet => settings.sonnet
    case Haiku => settings.haiku
  }

  /**
   * The whole normaliser, family by family: every key holds the normalised target of its last entry, the default
   * target is normalised, a missing family is empty, and only the text "omit" asks for omission.
   */
  lemma SettingsLastEntryWins(value: RawSettings, collation: Collation, name: FamilyName, k: string)
    requires Total(collation)
    ensures var s := NormalizeSettings(value, collation);
            var raw, f := RawOf(value, name), FamilyOf(s, name);
            && (s.fallbackMode == Omit <==> value.fallbackMode == Str("omit"))
            && (raw.None? ==> f == Family(map[], None))
            && (raw.Some? ==>
                  var entries := raw.value.sourceToTarget;
                  && f.defaultTarget == NormalizeNullableEffort(raw.value.defaultTarget)
                  && (k in f.sourceToTarget <==> k != "" && exists i: nat :: IsLast(entries, i, k))
                  && forall i: nat :: k != "" && IsLast(entries, i, k) ==>
                       k in f.sourceToTarget && f.sourceToTarget[k] == NormalizeNullableEffort(entries[i].1))
  {
    var raw := RawOf(value, name);
    if raw.Some? {
      NormalizerLastEntryWins(raw.value.sourceToTarget, collation, k);
    }
  }

  // ---------------------------------------------------------------------------------------------
  // Normal forms and idempotence.
  // ---------------------------------------------------------------------------------------------

  predicate NormalString(s: string) { s != "" && TrimmedBy(s, Blank) && IsLower(s) }

  lemma NormalTextIsNormal(s: string)
    ensures var t := NormalText(s); TrimmedBy(t, Blank) && IsLower(t) && |t| == |Trim(s)|
  {
    TrimTrims(s, Blank);
    LowerIsLower(Trim(s));
  }

  lemma NormalStringIsFixed(s: string)
    requires NormalString(s)
    ensures NormalText(s) == s && Trim(s) == s
  {
    TrimmedIsFixed(s, Blank);
    LowerIsFixed(s);
  }

  predicate NormalTarget(t: Option<string>) { t.None? || NormalString(t.value) }

  lemma EffortIsNormal(v: Raw)
    ensures NormalTarget(NormalizeNullableEffort(v))
  {
    if v.Str? {
      NormalTextIsNormal(v.text);
    }
  }

  ghost predicate NormalFamily(f: Family) {
    && (forall k :: k in f.sourceToTarget ==> NormalString(k) && NormalTarget(f.sourceToTarget[k]))
    && NormalTarget(f.defaultTarget)
  }

  ghost predicate NormalSettings(s: Settings) {
    NormalFamily(s.opus) && NormalFamily(s.sonnet) && NormalFamily(s.haiku)
  }

  lemma FamilyIsNormal(value: Option<RawFamily>, collation: Collation)
    requires Total(collation)
    ensures NormalFamily(NormalizeFamily(value, collation))
  {
    if value.Some? {
      EffortIsNormal(value.value.defaultTarget);
      var entries := value.value.sourceToTarget;
      forall k | k in NormalizeEntries(entries, collation)
        ensures NormalString(k) && NormalTarget(NormalizeEntries(entries, collation)[k])
      {
        NormalizerLastEntryWins(entries, collation, k);
        var i: nat :| IsLast(entries, i, k);
        NormalTextIsNormal(entries[i].0);
        EffortIsNormal(entries[i].1);
      }
    }
  }

  /** Every key and target of normalised settings is non-empty, trimmed and lower-case. */
  lemma SettingsAreNormal(value: RawSettings, collation: Collation)
    requires Total(collation)
    ensures NormalSettings(NormalizeSettings(value, collation))
  {
    FamilyIsNormal(value.opus, collation);
    FamilyIsNormal(value.sonnet, collation);
    FamilyIsNormal(value.haiku, collation);
  }

  function Lift(t: Option<string>): Raw { if t.Some? then Str(t.value) else NotString }

  /** A listing of an object's own entries, each key once, in any order. */
  ghost predicate Lists(entries: seq<RawEntry>, m: map<string, Option<string>>) {
    && (forall i :: 0 <= i < |entries| ==> entries[i].0 in m && entries[i].1 == Lift(m[entries[i].0]))
    && (forall i, j :: 0 <= i < j < |entries| ==> entries[i].0 != entries[j].0)
    && (forall k :: k in m ==> exists i :: 0 <= i < |entries| && entries[i].0 == k)
  }

  ghost predicate Rereads(raw: Option<RawFamily>, f: Family) {
    raw.Some? && Lists(raw.value.sourceToTarget, f.sourceToTarget) && raw.value.defaultTarget == Lift(f.defaultTarget)
  }

  lemma TargetIsFixed(t: Option<string>)
    requires NormalTarget(t)
    ensures NormalizeNullableEffort(Lift(t)) == t
  {
    if t.Some? {
      NormalStringIsFixed(t.value);
    }
  }

  lemma ListingKeys(entries: seq<RawEntry>, f: Family, k: string, i: nat)
    requires NormalFamily(f) && Lists(entries, f.sourceToTarget) && i < |entries|
    ensures NormalText(entries[i].0) == entries[i].0
    ensures entries[i].0 == k ==> IsLast(entries, i, k)
  {
    forall j | 0 <= j < |entries| ensures NormalText(entries[j].0) == entries[j].0 {
      NormalStringIsFixed(entries[j].0);
    }
  }

  lemma NormalFamilyIsFixed(raw: Option<RawFamily>, f: Family, collation: Collation)
    requires Total(collation) && NormalFamily(f) && Rereads(raw, f)
    ensures NormalizeFamily(raw, collation) == f
  {
    var entries, m := raw.value.sourceToTarget, f.sourceToTarget;
    TargetIsFixed(f.defaultTarget);
    var out := NormalizeEntries(entries, collation);
    forall k ensures k in out <==> k in m {
      NormalizerLastEntryWins(entries, collation, k);
      if k in m {
        var i: nat :| i < |entries| && entries[i].0 == k;
        ListingKeys(entries, f, k, i);
      } else if k in out {
        var i: nat :| IsLast(entries, i, k);
        ListingKeys(entries, f, k, i);
      }
    }
    forall k | k in m ensures k in out && out[k] == m[k] {
      NormalizerLastEntryWins(entries, collation, k);
      var i: nat :| i < |entries| && entries[i].0 == k;
      ListingKeys(entries, f, k, i);
      TargetIsFixed(m[k]);
    }
  }

  /** Idempotence: normalised settings, read back in any entry order, normalise to themselves. */
  lemma NormalizationIsIdempotent(value: RawSettings, reread: RawSettings, collation: Collation)
    requires Total(collation)
    requires var s := NormalizeSettings(value, collation);
             && Rereads(reread.opus, s.opus) && Rereads(reread.sonnet, s.sonnet) && Rereads(reread.haiku, s.haiku)
             && reread.fallbackMode == Str(if s.fallbackMode == Omit then "omit" else "clamp_down")
    ensures NormalizeSettings(reread, collation) == NormalizeSettings(value, collation)
  {
    var s := NormalizeSettings(value, collation);
    SettingsAreNormal(value, collation);
    NormalFamilyIsFixed(reread.opus, s.opus, collation);
    NormalFamilyIsFixed(reread.sonnet, s.sonnet, collation);
    NormalFamilyIsFixed(reread.haiku, s.haiku, collation);
  }
}
