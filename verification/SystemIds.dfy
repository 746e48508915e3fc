/** Normalizing the configured systems: every system gets an identifier of its own, and one of them is the default. */
module SystemIds {
  import opened PythonText
  import opened Wrappers

  /** A configured system; `connection` stands for its API and SSH settings. */
  datatype System = System(id: string, connection: string)

  datatype Normalized = Normalized(ids: seq<string>, defaultId: string, connection: string)

  predicate Plain(c: char) {
    'a' <= c <= 'z' || '0' <= c <= '9' || c == '_' || c == '-'
  }

  predicate Kept(c: char) {
    Plain(c) || 'A' <= c <= 'Z'
  }

  predicate Edge(c: char) {
    c == '-' || c == '_'
  }

  const EDGE: char -> bool := c => Edge(c)

  /** Every run of other characters becomes one hyphen. */
  function Hyphenated(text: string, inRun: bool): string {
    if text == "" then ""
    else if Kept(text[0]) then [text[0]] + Hyphenated(text[1..], false)
    else (if inRun then "" else "-") + Hyphenated(text[1..], true)
  }

  function LowerChar(c: char): char {
    if 'A' <= c <= 'Z' then (c as int + 32) as char else c
  }

  /** `str.lower()` of an ASCII text. */
  function Lower(text: string): (r: string)
    ensures |r| == |text|
  {
    if text == "" then "" else [LowerChar(text[0])] + Lower(text[1..])
  }

  function Digits(n: nat): (r: string)
    ensures r != "" && '0' <= r[|r| - 1] <= '9'
  {
    if n < 10 then [('0' as int + n) as char] else Digits(n / 10) + [('0' as int + n % 10) as char]
  }

  function NormalizeText(value: Option<string>): Option<string> {
    if value.Some? && Strip(value.value) != "" then Some(Strip(value.value)) else None
  }

  function Fallback(index: nat): string {
    "system-" + Digits(index)
  }

  /** `_normalize_system_id`. */
  function NormalizeId(value: Option<string>, index: nat): string {
    var text := NormalizeText(value);
    if text.None? then Fallback(index)
    else
      var id := Lower(StripWhere(Hyphenated(text.value, false), EDGE));
      if id == "" then Fallback(index) else id
  }

  predicate AllPlain(text: string) {
    text != "" ==> Plain(text[0]) && AllPlain(text[1..])
  }

  lemma {:induction false} PlainConcat(a: string, b: string)
    ensures AllPlain(a + b) <==> AllPlain(a) && AllPlain(b)
  {
    if a == "" {
      assert a + b == b;
    } else {
      assert (a + b)[1..] == a[1..] + b;
      PlainConcat(a[1..], b);
    }
  }

  predicate AllKept(text: string) {
    text != "" ==> Kept(text[0]) && AllKept(text[1..])
  }

  /** An identifier the normalization accepts as it is. */
  predicate IsId(id: string) {
    id != "" && AllPlain(id) && !Edge(id[0]) && !Edge(id[|id| - 1])
  }

  lemma SystemIsId()
    ensures IsId("system")
  {
    PlainConcat("sys", "tem");
    PlainConcat("s", "ys");
    PlainConcat("y", "s");
    PlainConcat("t", "em");
    PlainConcat("e", "m");
    assert "s" + "ys" == "sys" && "y" + "s" == "ys" && "t" + "em" == "tem" && "e" + "m" == "em";
    assert "sys" + "tem" == "system";
  }

  lemma FallbackIsId(index: nat)
    ensures IsId(Fallback(index))
  {
    SystemIsId();
    EndsInDigits("system", index);
    assert "system" + "-" == "system-";
  }

  lemma {:induction false} KeptConcat(a: string, b: string)
    ensures AllKept(a + b) <==> AllKept(a) && AllKept(b)
  {
    if a == "" {
      assert a + b == b;
    } else {
      assert (a + b)[1..] == a[1..] + b;
      KeptConcat(a[1..], b);
    }
  }

  lemma {:induction false} HyphenatedIsKept(text: string, inRun: bool)
    ensures AllKept(Hyphenated(text, inRun))
  {
    if text != "" {
      HyphenatedIsKept(text[1..], !Kept(text[0]));
      var first := if Kept(text[0]) then [text[0]] else if inRun then "" else "-";
      KeptConcat(first, Hyphenated(text[1..], !Kept(text[0])));
    }
  }

  lemma {:induction false} StripKeepsKept(text: string)
    requires AllKept(text)
    ensures AllKept(StripWhere(text, EDGE))
  {
    if text != "" && Edge(text[0]) {
      StripKeepsKept(text[1..]);
    } else if text != "" && Edge(text[|text| - 1]) {
      assert text == text[..|text| - 1] + [text[|text| - 1]];
      KeptConcat(text[..|text| - 1], [text[|text| - 1]]);
      StripKeepsKept(text[..|text| - 1]);
    }
  }

  lemma {:induction false} LowerIsPlain(text: string)
    requires AllKept(text)
    ensures AllPlain(Lower(text))
  {
    if text != "" {
      LowerIsPlain(text[1..]);
    }
  }

  /** Lowering changes neither end of a text into a hyphen or underscore. */
  lemma {:induction false} LowerEnds(text: string)
    requires text != ""
    ensures Lower(text)[0] == LowerChar(text[0]) && Lower(text)[|text| - 1] == LowerChar(text[|text| - 1])
  {
    if |text| > 1 {
      LowerEnds(text[1..]);
    }
  }

  lemma NormalizedIsId(value: Option<string>, index: nat)
    ensures IsId(NormalizeId(value, index))
  {
    FallbackIsId(index);
    if NormalizeText(value).Some? {
      HyphenatedIsId(NormalizeText(value).value);
    }
  }

  lemma HyphenatedIsId(text: string)
    ensures var id := Lower(StripWhere(Hyphenated(text, false), EDGE)); id == "" || IsId(id)
  {
    var stripped := StripWhere(Hyphenated(text, false), EDGE);
    HyphenatedIsKept(text, false);
    StripKeepsKept(Hyphenated(text, false));
    LowerIsPlain(stripped);
    if stripped != "" {
      LowerEnds(stripped);
    }
  }

  lemma {:induction false} PlainStays(text: string)
    requires AllPlain(text)
    ensures Hyphenated(text, false) == text && Lower(text) == text
  {
    if text != "" {
      assert text == [text[0]] + text[1..];
      PlainStays(text[1..]);
    }
  }

  lemma IdIsStripped(id: string)
    requires IsId(id)
    ensures NormalizeText(Some(id)) == Some(id)
  {
    assert id == id[..|id| - 1] + [id[|id| - 1]];
    PlainConcat(id[..|id| - 1], [id[|id| - 1]]);
    assert Strip(id) == id;
  }

  /** Normalizing an identifier again changes nothing, wherever the system stands. */
  lemma IdIsFixed(id: string, index: nat)
    requires IsId(id)
    ensures NormalizeId(Some(id), index) == id
  {
    IdIsStripped(id);
    PlainStays(id);
    EndsStay(id);
  }

  lemma EndsStay(id: string)
    requires IsId(id)
    ensures StripWhere(id, EDGE) == id
  {
  }

  // ---------------------------------------------------------------- distinct identifiers

  function Suffixed(id: string, suffix: nat): string {
    id + "-" + Digits(suffix)
  }

  /** The base itself if it is free, else the base with the smallest free suffix from two. */
  ghost predicate Chosen(seen: set<string>, base: string, id: string) {
    if base !in seen then id == base
    else id !in seen && exists k: nat :: SmallestSuffix(seen, base, k) && id == Suffixed(base, k)
  }

  ghost predicate SmallestSuffix(seen: set<string>, base: string, k: nat) {
    k >= 2 && forall j: nat | 2 <= j < k :: Suffixed(base, j) in seen
  }

  function DigitsValue(text: string): int {
    if text == "" then 0 else 10 * DigitsValue(text[..|text| - 1]) + (text[|text| - 1] as int - '0' as int)
  }

  lemma {:induction false} DigitsRoundTrip(n: nat)
    ensures DigitsValue(Digits(n)) == n
  {
    if n >= 10 {
      DigitsRoundTrip(n / 10);
      assert Digits(n)[..|Digits(n)| - 1] == Digits(n / 10);
    } else {
      assert Digits(n)[..0] == "";
    }
  }

  lemma SuffixesDiffer(id: string, j: nat, k: nat)
    requires Suffixed(id, j) == Suffixed(id, k)
    ensures j == k
  {
    DigitsRoundTrip(j);
    DigitsRoundTrip(k);
    assert Suffixed(id, j)[|id| + 1..] == Digits(j);
    assert Suffixed(id, k)[|id| + 1..] == Digits(k);
  }

  /** The suffix search ends because only finitely many identifiers are taken. */
  method ChooseId(seen: set<string>, base: string) returns (id: string)
    ensures Chosen(seen, base, id)
  {
    if base !in seen { return base; }
    var suffix: nat := 2;
    ghost var tried: set<string> := {};
    while Suffixed(base, suffix) in seen
      invariant SmallestSuffix(seen, base, suffix) && tried <= seen && |tried| == suffix - 2
      invariant forall id <- tried :: exists j: nat | 2 <= j < suffix :: id == Suffixed(base, j)
      decreases |seen| - |tried|
    {
      if Suffixed(base, suffix) in tried {
        var j: nat :| 2 <= j < suffix && Suffixed(base, suffix) == Suffixed(base, j);
        SuffixesDiffer(base, suffix, j);
      }
      tried := tried + {Suffixed(base, suffix)};
      Smaller(tried, seen);
      suffix := suffix + 1;
    }
    id := Suffixed(base, suffix);
  }

  lemma {:induction false} Smaller(a: set<string>, b: set<string>)
    requires a <= b
    ensures |a| <= |b|
  {
    if a != {} {
      var x :| x in a;
      Smaller(a - {x}, b - {x});
    }
  }

  lemma {:induction false} DigitsArePlain(n: nat)
    ensures AllPlain(Digits(n))
  {
    if n >= 10 {
      DigitsArePlain(n / 10);
      PlainConcat(Digits(n / 10), [('0' as int + n % 10) as char]);
    }
  }

  lemma EndsInDigits(word: string, n: nat)
    requires IsId(word)
    ensures IsId(Suffixed(word, n))
  {
    DigitsArePlain(n);
    PlainConcat(word, "-");
    PlainConcat(word + "-", Digits(n));
  }

  lemma ChosenIsId(seen: set<string>, base: string, id: string)
    requires Chosen(seen, base, id) && IsId(base)
    ensures IsId(id)
  {
    if base in seen {
      var k: nat :| id == Suffixed(base, k);
      EndsInDigits(base, k);
    }
  }

  // ---------------------------------------------------------------- all systems

  function IdSet(ids: seq<string>): set<string> {
    set id | id in ids
  }

  /** The normalized identifiers of systems before they are made distinct; fallbacks count from one. */
  function Bases(systems: seq<System>): (bases: seq<string>)
    ensures |bases| == |systems|
  {
    if systems == [] then []
    else Bases(systems[..|systems| - 1]) + [NormalizeId(Some(systems[|systems| - 1].id), |systems|)]
  }

  /** The identifiers chosen for some bases, each against the ones before it. */
  ghost predicate Identified(bases: seq<string>, ids: seq<string>) {
    if bases == [] then ids == []
    else
      && |ids| == |bases|
      && var n := |ids| - 1;
         Identified(bases[..n], ids[..n]) && Chosen(IdSet(ids[..n]), bases[n], ids[n])
  }

  predicate Distinct(ids: seq<string>) {
    forall i, j | 0 <= i < j < |ids| :: ids[i] != ids[j]
  }

  predicate AllIds(ids: seq<string>) {
    ids != [] ==> IsId(ids[|ids| - 1]) && AllIds(ids[..|ids| - 1])
  }

  lemma BasesMore(systems: seq<System>, i: nat)
    requires i < |systems|
    ensures Bases(systems[..i + 1]) == Bases(systems[..i]) + [NormalizeId(Some(systems[i].id), i + 1)]
  {
    assert systems[..i + 1][..i] == systems[..i];
  }

  lemma IdentifiedMore(bases: seq<string>, ids: seq<string>, base: string, id: string)
    requires Identified(bases, ids) && Chosen(IdSet(ids), base, id)
    ensures Identified(bases + [base], ids + [id]) && IdSet(ids + [id]) == IdSet(ids) + {id}
  {
    assert (bases + [base])[..|bases|] == bases && (ids + [id])[..|ids|] == ids;
  }

  lemma {:induction false} BasesAreIds(systems: seq<System>)
    ensures AllIds(Bases(systems))
  {
    if systems != [] {
      var n := |systems| - 1;
      BasesAreIds(systems[..n]);
      NormalizedIsId(Some(systems[n].id), n + 1);
      assert Bases(systems)[..n] == Bases(systems[..n]);
    }
  }

  /** Pairwise distinct identifiers, each of which the normalization accepts. */
  lemma {:induction false} IdentifiedAreDistinct(bases: seq<string>, ids: seq<string>)
    requires Identified(bases, ids) && AllIds(bases)
    ensures Distinct(ids) && AllIds(ids)
  {
    if ids != [] {
      var n := |ids| - 1;
      IdentifiedAreDistinct(bases[..n], ids[..n]);
      ChosenIsId(IdSet(ids[..n]), bases[n], ids[n]);
      forall i | 0 <= i < n
        ensures ids[i] in IdSet(ids[..n])
      {
        assert ids[..n][i] == ids[i];
      }
    }
  }

  /** The identifiers are determined by the configuration alone. */
  lemma {:induction false} IdsAreDetermined(bases: seq<string>, a: seq<string>, b: seq<string>)
    requires Identified(bases, a) && Identified(bases, b)
    ensures a == b
  {
    if a != [] {
      var n := |a| - 1;
      IdsAreDetermined(bases[..n], a[..n], b[..n]);
      OneChoice(IdSet(a[..n]), bases[n], a[n], b[n]);
      assert a == a[..n] + [a[n]] && b == b[..n] + [b[n]];
    }
  }

  lemma OneChoice(seen: set<string>, base: string, a: string, b: string)
    requires Chosen(seen, base, a) && Chosen(seen, base, b)
    ensures a == b
  {
    if base in seen {
      var j: nat :| SmallestSuffix(seen, base, j) && a == Suffixed(base, j);
      var k: nat :| SmallestSuffix(seen, base, k) && b == Suffixed(base, k);
    }
  }

  /** Distinct bases are chosen as they are. */
  lemma {:induction false} DistinctAreKept(ids: seq<string>)
    requires Distinct(ids)
    ensures Identified(ids, ids)
  {
    if ids != [] {
      DistinctAreKept(ids[..|ids| - 1]);
    }
  }

  function ConfiguredIds(systems: seq<System>): seq<string> {
    if systems == [] then [] else ConfiguredIds(systems[..|systems| - 1]) + [systems[|systems| - 1].id]
  }

  lemma {:induction false} BasesOfIds(systems: seq<System>)
    requires AllIds(ConfiguredIds(systems))
    ensures Bases(systems) == ConfiguredIds(systems)
  {
    if systems != [] {
      var rest, last := systems[..|systems| - 1], systems[|systems| - 1];
      assert ConfiguredIds(systems)[..|ConfiguredIds(systems)| - 1] == ConfiguredIds(rest);
      BasesOfIds(rest);
      IdIsFixed(last.id, |systems|);
    }
  }

  /** The result of normalizing some systems, of which one may be asked for as the default. */
  ghost predicate NormalizedTo(systems: seq<System>, defaultId: Option<string>, n: Normalized) {
    && systems != [] && Identified(Bases(systems), n.ids) && Distinct(n.ids) && AllIds(n.ids)
    && |n.ids| == |systems|
    && var asked := NormalizeText(defaultId);
       && n.defaultId == (if asked.Some? && asked.value in n.ids then asked.value else n.ids[0])
       && n.defaultId in n.ids
       && forall i | 0 <= i < |systems| && n.ids[i] == n.defaultId :: n.connection == systems[i].connection
  }

  /** The settings normalization leaves: the systems under their new identifiers. */
  function Renamed(systems: seq<System>, ids: seq<string>): (r: seq<System>)
    requires |ids| == |systems|
    ensures |r| == |systems| && forall i | 0 <= i < |r| :: r[i] == System(ids[i], systems[i].connection)
  {
    seq(|systems|, i requires 0 <= i < |systems| => System(ids[i], systems[i].connection))
  }

  lemma {:induction false} RenamedIds(systems: seq<System>, ids: seq<string>)
    requires |ids| == |systems| && forall i | 0 <= i < |systems| :: systems[i].id == ids[i]
    ensures ConfiguredIds(systems) == ids
  {
    if systems != [] {
      var n := |systems| - 1;
      RenamedIds(systems[..n], ids[..n]);
      assert ids == ids[..n] + [ids[n]];
    }
  }

  /**
   Normalizing again changes nothing: every identifier is kept and none needs a suffix, the default stays the
   default, and so do the settings that follow it.
   */
  lemma NormalizingAgainChangesNothing(
      systems: seq<System>, defaultId: Option<string>, n: Normalized, again: Normalized)
    requires NormalizedTo(systems, defaultId, n)
    requires NormalizedTo(Renamed(systems, n.ids), Some(n.defaultId), again)
    ensures again == n
  {
    IdsAreKept(Renamed(systems, n.ids), n.ids, again.ids);
    var i :| 0 <= i < |n.ids| && n.ids[i] == n.defaultId;
    MemberIsId(n.ids, i);
    IdIsStripped(n.defaultId);
  }

  lemma IdsAreKept(systems: seq<System>, ids: seq<string>, again: seq<string>)
    requires |ids| == |systems| && forall i | 0 <= i < |systems| :: systems[i].id == ids[i]
    requires Distinct(ids) && AllIds(ids) && Identified(Bases(systems), again)
    ensures again == ids
  {
    RenamedIds(systems, ids);
    BasesOfIds(systems);
    DistinctAreKept(ids);
    IdsAreDetermined(ids, again, ids);
  }

  lemma {:induction false} MemberIsId(ids: seq<string>, i: nat)
    requires i < |ids| && AllIds(ids)
    ensures IsId(ids[i])
  {
    if i < |ids| - 1 {
      MemberIsId(ids[..|ids| - 1], i);
    }
  }

  /** The loop of `_normalize_systems` over the identifiers. */
  method NormalizeIds(systems: seq<System>) returns (ids: seq<string>, seen: set<string>)
    ensures Identified(Bases(systems), ids) && seen == IdSet(ids)
    ensures Distinct(ids) && AllIds(ids)
  {
    ids, seen := [], {};
    for i := 0 to |systems|
      invariant Identified(Bases(systems[..i]), ids) && seen == IdSet(ids)
    {
      var base := NormalizeId(Some(systems[i].id), i + 1);
      var id := ChooseId(seen, base);
      BasesMore(systems, i);
      IdentifiedMore(Bases(systems[..i]), ids, base, id);
      seen, ids := seen + {id}, ids + [id];
    }
    assert systems[..|systems|] == systems;
    BasesAreIds(systems);
    IdentifiedAreDistinct(Bases(systems), ids);
  }

  /** `_normalize_systems`: the identifiers, the default among them, and the settings that follow the default. */
  method NormalizeSystems(configured: seq<System>, fallback: string, defaultId: Option<string>)
    returns (systems: seq<System>, normalized: Normalized)
    ensures systems == if configured == [] then [System("default", fallback)] else configured
    ensures NormalizedTo(systems, defaultId, normalized)
  {
    systems := configured;
    if systems == [] {
      systems := [System("default", fallback)];
    }
    var ids, seen := NormalizeIds(systems);
    var asked := NormalizeText(defaultId);
    var chosen := ids[0];
    if asked.Some? && asked.value in seen {
      chosen := asked.value;
    }
    var d := 0;
    while d < |ids| && ids[d] != chosen
      invariant 0 <= d <= |ids| && chosen !in ids[..d]
    {
      d := d + 1;
    }
    assert d < |ids| by {
      assert chosen in ids && ids[..|ids|] == ids;
    }
    normalized := Normalized(ids, chosen, systems[d].connection);
  }
}
