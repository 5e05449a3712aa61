/** Parity scoring: how alike the targets of one component are, over exact reals. */
module Parity {
  import opened Order
  import opened Components

  datatype Compute = Compute(vcpu: int, memoryGB: real, architecture: string)
  datatype Storage = Storage(sizeGB: int, iops: int, kind: string)
  datatype Database = Database(engine: string, version: string, compute: Compute, storage: Storage)
  datatype Profile = Profile(kind: string, compute: Option<Compute>, storage: Option<Storage>,
                             database: Option<Database>, features: map<string, bool>)

  datatype Comparison = Comparison(attribute: string, allMatch: bool, score: real)

  // ---------------------------------------------------------------- one attribute

  /** The values of those targets that have the attribute. */
  function Values<T>(targets: seq<Profile>, get: Profile -> Option<T>): seq<T> {
    if targets == [] then []
    else
      var last := get(targets[|targets| - 1]);
      Values(targets[..|targets| - 1], get) + if last.Some? then [last.value] else []
  }

  predicate AllEqual<T(==)>(xs: seq<T>) {
    forall i :: 0 <= i < |xs| ==> xs[i] == xs[0]
  }

  ghost predicate IsMin(xs: seq<real>, m: real) {
    m in xs && forall x :: x in xs ==> m <= x
  }

  ghost predicate IsMax(xs: seq<real>, m: real) {
    m in xs && forall x :: x in xs ==> x <= m
  }

  lemma ExtremesNext(xs: seq<real>, lo: real, hi: real, v: real)
    requires IsMin(xs, lo) && IsMax(xs, hi)
    ensures IsMin(xs + [v], if v < lo then v else lo)
    ensures IsMax(xs + [v], if v > hi then v else hi)
  {
    assert v in xs + [v];
  }

  lemma ExtremesMeet(xs: seq<real>, lo: real, hi: real)
    requires IsMin(xs, lo) && IsMax(xs, hi)
    ensures lo <= hi && (lo == hi <==> AllEqual(xs))
  {
    if lo == hi {
      forall i | 0 <= i < |xs|
        ensures xs[i] == xs[0]
      {
        assert xs[i] in xs && xs[0] in xs;
      }
    }
  }

  method Extremes(targets: seq<Profile>, get: Profile -> Option<real>) returns (haveAny: bool, lo: real, hi: real)
    ensures haveAny <==> Values(targets, get) != []
    ensures haveAny ==> IsMin(Values(targets, get), lo) && IsMax(Values(targets, get), hi)
  {
    haveAny, lo, hi := false, 0.0, 0.0;
    for i := 0 to |targets|
      invariant haveAny <==> Values(targets[..i], get) != []
      invariant haveAny ==> IsMin(Values(targets[..i], get), lo) && IsMax(Values(targets[..i], get), hi)
    {
      assert targets[..i + 1][..i] == targets[..i];
      ghost var xs := Values(targets[..i], get);
      var got := get(targets[i]);
      if got.None? {
        continue;
      }
      var v := got.value;
      if !haveAny {
        lo, hi, haveAny := v, v, true;
        assert xs + [v] == [v];
      } else {
        ExtremesNext(xs, lo, hi, v);
        if v < lo {
          lo := v;
        }
        if v > hi {
          hi := v;
        }
      }
    }
    assert targets[..|targets|] == targets;
  }

  /** What a comparison's score should mean. */
  predicate Faithful(c: Comparison) {
    0.0 <= c.score <= 1.0 && (c.score == 1.0 <==> c.allMatch)
  }

  /** The numeric score from the extremes of the values. */
  function Closeness(lo: real, hi: real): real
  {
    if hi == 0.0 then 1.0
    else
      var raw := 1.0 - (hi - lo) / hi;
      if raw < 0.0 then 0.0 else raw
  }

  /** The score is faithful exactly when the values are all equal or the greatest is positive:
      with negative values only it exceeds 1, and up to zero it is 1 whatever the least. */
  lemma ClosenessFaithfulIff(lo: real, hi: real)
    requires lo <= hi
    ensures 0.0 <= Closeness(lo, hi) <= 1.0 && (Closeness(lo, hi) == 1.0 <==> lo == hi) <==> lo == hi || hi > 0.0
  {
    if hi != 0.0 {
      var q := (hi - lo) / hi;
      assert q * hi == hi - lo;
      assert lo == hi ==> q == 0.0;
      if hi > 0.0 {
        assert q >= 0.0;
        assert q == 0.0 ==> lo == hi;
      } else if lo < hi {
        assert q < 0.0;
      }
    }
  }

  /** All the same, or the greatest is positive. */
  ghost predicate Comparable(xs: seq<real>) {
    AllEqual(xs) || exists v :: v in xs && v > 0.0
  }

  /** `numericCmp` */
  method NumericCmp(attribute: string, targets: seq<Profile>, get: Profile -> Option<real>) returns (c: Comparison)
    ensures c.attribute == attribute && (c.allMatch <==> AllEqual(Values(targets, get)))
    ensures Values(targets, get) == [] ==> c.score == 1.0
    ensures Values(targets, get) != [] ==>
              exists lo, hi :: IsMin(Values(targets, get), lo) && IsMax(Values(targets, get), hi)
                  && c.score == Closeness(lo, hi)
    ensures ComparesAttribute(targets, c, Numeric(attribute, get))
  {
    var haveAny, lo, hi := Extremes(targets, get);
    if !haveAny {
      return Comparison(attribute, true, 1.0);
    }
    ExtremesMeet(Values(targets, get), lo, hi);
    ClosenessFaithfulIff(lo, hi);
    var score := 1.0;
    if hi != 0.0 {
      score := 1.0 - (hi - lo) / hi;
      if score < 0.0 {
        score := 0.0;
      }
    }
    return Comparison(attribute, lo == hi, score);
  }

  /** `exactCmp` */
  method ExactCmp(attribute: string, targets: seq<Profile>, get: Profile -> Option<string>) returns (c: Comparison)
    ensures c.attribute == attribute && (c.allMatch <==> AllEqual(Values(targets, get)))
    ensures c.score == (if c.allMatch then 1.0 else 0.0) && ComparesAttribute(targets, c, Exact(attribute, get))
  {
    var first, haveFirst, allMatch := "", false, true;
    for i := 0 to |targets|
      invariant haveFirst <==> Values(targets[..i], get) != []
      invariant haveFirst ==> first == Values(targets[..i], get)[0]
      invariant allMatch <==> AllEqual(Values(targets[..i], get))
    {
      assert targets[..i + 1][..i] == targets[..i];
      ghost var xs := Values(targets[..i], get);
      var got := get(targets[i]);
      if got.None? {
        assert xs + [] == xs;
        continue;
      }
      AllEqualNext(xs, got.value);
      assert Values(targets[..i + 1], get) == xs + [got.value];
      if !haveFirst {
        first, haveFirst := got.value, true;
      } else if got.value != first {
        allMatch := false;
      }
    }
    assert targets[..|targets|] == targets;
    return Comparison(attribute, allMatch, if allMatch then 1.0 else 0.0);
  }

  lemma AllEqualNext<T>(xs: seq<T>, v: T)
    ensures AllEqual(xs + [v]) <==> AllEqual(xs) && (xs == [] || v == xs[0])
  {
    var longer := xs + [v];
    assert forall i :: 0 <= i < |xs| ==> longer[i] == xs[i];
    if AllEqual(longer) {
      assert longer[|xs|] == longer[0];
    }
  }

  // ---------------------------------------------------------------- features

  /** A missing feature counts as false. */
  function FeatureOf(p: Profile, key: string): bool {
    key in p.features && p.features[key]
  }

  ghost predicate KeyOf(targets: seq<Profile>, key: string) {
    exists i :: 0 <= i < |targets| && key in targets[i].features
  }

  ghost predicate SameFeature(targets: seq<Profile>, key: string) {
    forall i :: 0 <= i < |targets| ==> FeatureOf(targets[i], key) == FeatureOf(targets[0], key)
  }

  method FeatureKeys(targets: seq<Profile>) returns (keys: set<string>)
    ensures forall k :: k in keys <==> KeyOf(targets, k)
  {
    keys := {};
    for i := 0 to |targets|
      invariant forall k :: k in keys <==> exists j :: 0 <= j < i && k in targets[j].features
    {
      keys := keys + targets[i].features.Keys;
    }
  }

  method FeatureCmp(targets: seq<Profile>, key: string) returns (c: Comparison)
    ensures c.attribute == "features." + key && (c.allMatch <==> SameFeature(targets, key))
    ensures c.score == if c.allMatch then 1.0 else 0.0
  {
    var allMatch := true;
    for i := 0 to |targets|
      invariant allMatch <==> forall j :: 0 <= j < i ==> FeatureOf(targets[j], key) == FeatureOf(targets[0], key)
    {
      if FeatureOf(targets[i], key) != FeatureOf(targets[0], key) {
        allMatch := false;
      }
    }
    return Comparison("features." + key, allMatch, if allMatch then 1.0 else 0.0);
  }

  /** The comparison of one feature key. */
  ghost predicate ComparesKey(targets: seq<Profile>, c: Comparison, key: string) {
    KeyOf(targets, key) && c.attribute == "features." + key && (c.allMatch <==> SameFeature(targets, key))
    && c.score == if c.allMatch then 1.0 else 0.0
  }

  ghost predicate ComparesSome(targets: seq<Profile>, c: Comparison, pending: set<string>) {
    exists key :: key !in pending && ComparesKey(targets, c, key)
  }

  /** Every comparison is of a key no longer pending, and no key is compared twice. */
  ghost predicate AllCompare(targets: seq<Profile>, cs: seq<Comparison>, pending: set<string>) {
    Distinct(Attributes(cs)) && forall k :: 0 <= k < |cs| ==> ComparesSome(targets, cs[k], pending)
  }

  lemma SameKey(a: string, b: string)
    requires "features." + a == "features." + b
    ensures a == b
  {
    assert a == ("features." + a)[|"features."|..];
    assert b == ("features." + b)[|"features."|..];
  }

  lemma AllCompareNext(targets: seq<Profile>, cs: seq<Comparison>, pending: set<string>, c: Comparison, key: string)
    requires AllCompare(targets, cs, pending) && key in pending && ComparesKey(targets, c, key)
    ensures AllCompare(targets, cs + [c], pending - {key})
  {
    var more, rest := cs + [c], pending - {key};
    forall k | 0 <= k < |more|
      ensures ComparesSome(targets, more[k], rest)
      ensures k < |cs| ==> Attributes(cs)[k] != c.attribute
    {
      if k < |cs| {
        assert ComparesSome(targets, cs[k], pending);
        var other :| other !in pending && ComparesKey(targets, cs[k], other);
        if cs[k].attribute == c.attribute {
          SameKey(other, key);
        }
        assert other !in rest && ComparesKey(targets, more[k], other);
      } else {
        assert key !in rest && ComparesKey(targets, more[k], key);
      }
    }
    assert Attributes(more) == Attributes(cs) + [c.attribute];
    DistinctConcat(Attributes(cs), [c.attribute]);
  }

  ghost predicate Covers(cs: seq<Comparison>, key: string) {
    exists k :: 0 <= k < |cs| && cs[k].attribute == "features." + key
  }

  /** One comparison per feature key any target has, in whatever order the map yields them. */
  method FeaturesComparisons(targets: seq<Profile>) returns (out: seq<Comparison>)
    ensures AllCompare(targets, out, {})
    ensures forall key :: KeyOf(targets, key) ==> Covers(out, key)
  {
    var keys := FeatureKeys(targets);
    out := [];
    var rest := keys;
    while rest != {}
      invariant rest <= keys
      invariant AllCompare(targets, out, rest)
      invariant forall key :: key in keys && key !in rest ==> Covers(out, key)
      decreases rest
    {
      assert (forall k :: k !in rest) ==> rest == {};
      var key :| key in rest;
      var c := FeatureCmp(targets, key);
      AllCompareNext(targets, out, rest, c, key);
      CoversNext(out, c, key);
      out := out + [c];
      rest := rest - {key};
    }
  }

  lemma CoversNext(out: seq<Comparison>, c: Comparison, key: string)
    requires c.attribute == "features." + key
    ensures forall k :: Covers(out, k) || k == key ==> Covers(out + [c], k)
  {
    var more := out + [c];
    assert more[|out|] == c;
    assert forall i :: 0 <= i < |out| ==> more[i] == out[i];
  }

  // ---------------------------------------------------------------- the comparisons of a class

  ghost predicate NonNegative(p: Profile) {
    && (p.compute.Some? ==> p.compute.value.vcpu >= 0 && p.compute.value.memoryGB >= 0.0)
    && (p.storage.Some? ==> p.storage.value.sizeGB >= 0 && p.storage.value.iops >= 0)
    && (p.database.Some? ==> p.database.value.compute.vcpu >= 0 && p.database.value.compute.memoryGB >= 0.0 &&
                             p.database.value.storage.sizeGB >= 0)
  }

  ghost predicate AllNonNegative(targets: seq<Profile>) {
    forall i :: 0 <= i < |targets| ==> NonNegative(targets[i])
  }

  ghost predicate AllFaithful(cs: seq<Comparison>) {
    forall k :: 0 <= k < |cs| ==> Faithful(cs[k])
  }

  lemma {:induction false} ValuesFrom<T>(targets: seq<Profile>, get: Profile -> Option<T>, v: T)
    requires v in Values(targets, get)
    ensures exists i :: 0 <= i < |targets| && get(targets[i]) == Some(v)
  {
    var init := targets[..|targets| - 1];
    if v in Values(init, get) {
      ValuesFrom(init, get, v);
      var i :| 0 <= i < |init| && get(init[i]) == Some(v);
      assert get(targets[i]) == Some(v);
    }
  }

  ghost predicate ReadsNonNegative(targets: seq<Profile>, get: Profile -> Option<real>) {
    forall i :: 0 <= i < |targets| && get(targets[i]).Some? ==> get(targets[i]).value >= 0.0
  }

  /** Values that are never negative are all zero, so equal, unless one is positive. */
  lemma NonNegativeFaithful(targets: seq<Profile>, get: Profile -> Option<real>)
    requires ReadsNonNegative(targets, get)
    ensures Comparable(Values(targets, get))
  {
    var xs := Values(targets, get);
    if !(exists v :: v in xs && v > 0.0) {
      forall i | 0 <= i < |xs|
        ensures xs[i] == 0.0
      {
        assert xs[i] in xs;
        ValuesFrom(targets, get, xs[i]);
      }
    }
  }

  function VCPU(p: Profile): Option<real> {
    if p.compute.None? then None else Some(p.compute.value.vcpu as real)
  }

  function MemoryGB(p: Profile): Option<real> {
    if p.compute.None? then None else Some(p.compute.value.memoryGB)
  }

  function Architecture(p: Profile): Option<string> {
    if p.compute.None? then None else Some(p.compute.value.architecture)
  }

  function SizeGB(p: Profile): Option<real> {
    if p.storage.None? then None else Some(p.storage.value.sizeGB as real)
  }

  function IOPS(p: Profile): Option<real> {
    if p.storage.None? then None else Some(p.storage.value.iops as real)
  }

  function StorageKind(p: Profile): Option<string> {
    if p.storage.None? then None else Some(p.storage.value.kind)
  }

  function Engine(p: Profile): Option<string> {
    if p.database.None? then None else Some(p.database.value.engine)
  }

  function Version(p: Profile): Option<string> {
    if p.database.None? then None else Some(p.database.value.version)
  }

  function DatabaseVCPU(p: Profile): Option<real> {
    if p.database.None? then None else Some(p.database.value.compute.vcpu as real)
  }

  function DatabaseMemoryGB(p: Profile): Option<real> {
    if p.database.None? then None else Some(p.database.value.compute.memoryGB)
  }

  function DatabaseSizeGB(p: Profile): Option<real> {
    if p.database.None? then None else Some(p.database.value.storage.sizeGB as real)
  }

  /** An attribute a class compares, with the way to read it off a profile. */
  datatype Attribute =
    | Numeric(name: string, number: Profile -> Option<real>)
    | Exact(name: string, text: Profile -> Option<string>)

  /** The targets that have the attribute agree on it. */
  predicate AgreeOn(targets: seq<Profile>, a: Attribute) {
    if a.Numeric? then AllEqual(Values(targets, a.number)) else AllEqual(Values(targets, a.text))
  }

  ghost predicate FairOn(targets: seq<Profile>, a: Attribute) {
    a.Numeric? ==> Comparable(Values(targets, a.number))
  }

  function ComputeAttributes(): seq<Attribute> {
    [Numeric("compute.vCPU", VCPU), Numeric("compute.memoryGB", MemoryGB), Exact("compute.architecture", Architecture)]
  }

  function StorageAttributes(): seq<Attribute> {
    [Numeric("storage.sizeGB", SizeGB), Numeric("storage.iops", IOPS), Exact("storage.class", StorageKind)]
  }

  function DatabaseAttributes(): seq<Attribute> {
    [Exact("database.engine", Engine), Exact("database.version", Version), Numeric("compute.vCPU", DatabaseVCPU),
     Numeric("compute.memoryGB", DatabaseMemoryGB), Numeric("storage.sizeGB", DatabaseSizeGB)]
  }

  /** What a class compares besides features; none for an unknown class. */
  function ClassAttributes(kind: string): Option<seq<Attribute>> {
    match kind
    case "compute" => Some(ComputeAttributes() + StorageAttributes())
    case "database" => Some(DatabaseAttributes())
    case "storage" => Some(StorageAttributes())
    case "network" => Some([])
    case _ => None
  }

  /** `c` says whether the targets agree on `a`, and scores it faithfully where it can. */
  ghost predicate ComparesAttribute(targets: seq<Profile>, c: Comparison, a: Attribute) {
    && c.attribute == a.name && (c.allMatch <==> AgreeOn(targets, a))
    && (Faithful(c) <==> FairOn(targets, a))
  }

  ghost predicate ComparesAll(targets: seq<Profile>, cs: seq<Comparison>, attributes: seq<Attribute>) {
    |cs| == |attributes| && forall k :: 0 <= k < |cs| ==> ComparesAttribute(targets, cs[k], attributes[k])
  }

  method ComputeComparisons(targets: seq<Profile>) returns (out: seq<Comparison>)
    ensures ComparesAll(targets, out, ComputeAttributes())
  {
    var a := NumericCmp("compute.vCPU", targets, VCPU);
    var b := NumericCmp("compute.memoryGB", targets, MemoryGB);
    var c := ExactCmp("compute.architecture", targets, Architecture);
    out := [a, b, c];
  }

  method StorageComparisons(targets: seq<Profile>) returns (out: seq<Comparison>)
    ensures ComparesAll(targets, out, StorageAttributes())
  {
    var a := NumericCmp("storage.sizeGB", targets, SizeGB);
    var b := NumericCmp("storage.iops", targets, IOPS);
    var c := ExactCmp("storage.class", targets, StorageKind);
    out := [a, b, c];
  }

  method DatabaseComparisons(targets: seq<Profile>) returns (out: seq<Comparison>)
    ensures ComparesAll(targets, out, DatabaseAttributes())
  {
    var a := ExactCmp("database.engine", targets, Engine);
    var b := ExactCmp("database.version", targets, Version);
    var c := NumericCmp("compute.vCPU", targets, DatabaseVCPU);
    var d := NumericCmp("compute.memoryGB", targets, DatabaseMemoryGB);
    var e := NumericCmp("storage.sizeGB", targets, DatabaseSizeGB);
    out := [a, b, c, d, e];
  }

  function Attributes(cs: seq<Comparison>): (r: seq<string>)
    ensures |r| == |cs| && forall i :: 0 <= i < |r| ==> r[i] == cs[i].attribute
  {
    seq(|cs|, i requires 0 <= i < |cs| => cs[i].attribute)
  }

  /** The class of the first target. */
  function Compared(targets: seq<Profile>): Option<seq<Attribute>> {
    if targets == [] then None else ClassAttributes(targets[0].kind)
  }

  /** `cs` compares the attributes of the class, in order, and then every feature key any target
      has, each once, in some order. */
  ghost predicate IsComparison(targets: seq<Profile>, cs: seq<Comparison>) {
    match Compared(targets)
    case None => cs == []
    case Some(attributes) =>
      && |attributes| <= |cs| && ComparesAll(targets, cs[..|attributes|], attributes)
      && ComparesFeatures(targets, cs[|attributes|..])
  }

  ghost predicate ComparesFeatures(targets: seq<Profile>, cs: seq<Comparison>) {
    AllCompare(targets, cs, {}) && forall key :: KeyOf(targets, key) ==> Covers(cs, key)
  }

  /** The class of the first target decides what is compared. */
  method BuildComparisons(targets: seq<Profile>) returns (out: seq<Comparison>)
    ensures IsComparison(targets, out)
  {
    out := [];
    if |targets| == 0 {
      return;
    }
    var kind := targets[0].kind;
    if kind == "compute" {
      var compute := ComputeComparisons(targets);
      var storage := StorageComparisons(targets);
      out := compute + storage;
    } else if kind == "database" {
      out := DatabaseComparisons(targets);
    } else if kind == "storage" {
      out := StorageComparisons(targets);
    } else if kind != "network" {
      return;
    }
    var features := FeaturesComparisons(targets);
    ghost var attributes := out;
    out := out + features;
    assert out[..|attributes|] == attributes && out[|attributes|..] == features;
  }

  // ---------------------------------------------------------------- the score

  function DefaultWeight(attribute: string): Option<real> {
    match attribute
    case "compute.vCPU" => Some(0.20)
    case "compute.memoryGB" => Some(0.15)
    case "compute.architecture" => Some(0.05)
    case "storage.sizeGB" => Some(0.10)
    case "storage.iops" => Some(0.10)
    case "storage.class" => Some(0.05)
    case "features" => Some(0.20)
    case "database.engine" => Some(0.10)
    case "database.version" => Some(0.05)
    case _ => None
  }

  const FEATURES_WEIGHT := 0.20

  predicate IsFeature(attribute: string) {
    |attribute| > |"features."| && attribute[..|"features."|] == "features."
  }

  function WeightOf(c: Comparison): (w: real)
    ensures w >= 0.0
  {
    if IsFeature(c.attribute) || DefaultWeight(c.attribute).None? then 0.0 else DefaultWeight(c.attribute).value
  }

  function Weighted(c: Comparison): real {
    WeightOf(c) * c.score
  }

  function FeatureOne(c: Comparison): real {
    if IsFeature(c.attribute) then 1.0 else 0.0
  }

  function FeatureScore(c: Comparison): real {
    if IsFeature(c.attribute) then c.score else 0.0
  }

  function Sum(f: Comparison -> real, cs: seq<Comparison>): real {
    if cs == [] then 0.0 else Sum(f, cs[..|cs| - 1]) + f(cs[|cs| - 1])
  }

  /** A comparison has a part in the score. */
  predicate Counted(c: Comparison) {
    IsFeature(c.attribute) || DefaultWeight(c.attribute).Some?
  }

  /** The weighted mean, all features together weighing as one attribute. */
  function Mean(weight: real, weighted: real, features: real, featureScore: real): real {
    var total := weight + if features > 0.0 then FEATURES_WEIGHT else 0.0;
    if total == 0.0 then 1.0
    else (weighted + if features > 0.0 then FEATURES_WEIGHT * (featureScore / features) else 0.0) / total
  }

  function ScoreOf(cs: seq<Comparison>): real {
    Mean(Sum(WeightOf, cs), Sum(Weighted, cs), Sum(FeatureOne, cs), Sum(FeatureScore, cs))
  }

  lemma SumNext(f: Comparison -> real, cs: seq<Comparison>, i: nat)
    requires i < |cs|
    ensures Sum(f, cs[..i + 1]) == Sum(f, cs[..i]) + f(cs[i])
  {
    assert cs[..i + 1][..i] == cs[..i];
  }

  /** The four accumulators after the first `i` comparisons. */
  ghost predicate Totals(cs: seq<Comparison>, i: nat, weight: real, weighted: real, featureScore: real, features: int) {
    && i <= |cs| && features >= 0
    && weight == Sum(WeightOf, cs[..i]) && weighted == Sum(Weighted, cs[..i])
    && featureScore == Sum(FeatureScore, cs[..i]) && features as real == Sum(FeatureOne, cs[..i])
  }

  lemma TotalsNext(cs: seq<Comparison>, i: nat, weight: real, weighted: real, featureScore: real, features: int)
    requires i < |cs| && Totals(cs, i, weight, weighted, featureScore, features)
    ensures IsFeature(cs[i].attribute) ==> Totals(cs, i + 1, weight, weighted, featureScore + cs[i].score, features + 1)
    ensures !IsFeature(cs[i].attribute) ==>
              Totals(cs, i + 1, weight + WeightOf(cs[i]), weighted + Weighted(cs[i]), featureScore, features)
  {
    SumNext(WeightOf, cs, i);
    SumNext(Weighted, cs, i);
    SumNext(FeatureOne, cs, i);
    SumNext(FeatureScore, cs, i);
    assert IsFeature(cs[i].attribute) ==> Weighted(cs[i]) == 0.0;
  }

  lemma NotWeighed(c: Comparison)
    requires !Counted(c)
    ensures WeightOf(c) == 0.0 && Weighted(c) == 0.0
  {
  }

  method Accumulate(cs: seq<Comparison>)
    returns (totalWeight: real, weightedSum: real, featuresScoreSum: real, featuresCount: int)
    ensures Totals(cs, |cs|, totalWeight, weightedSum, featuresScoreSum, featuresCount)
  {
    totalWeight, weightedSum, featuresScoreSum, featuresCount := 0.0, 0.0, 0.0, 0;
    for i := 0 to |cs|
      invariant Totals(cs, i, totalWeight, weightedSum, featuresScoreSum, featuresCount)
    {
      TotalsNext(cs, i, totalWeight, weightedSum, featuresScoreSum, featuresCount);
      var c := cs[i];
      if IsFeature(c.attribute) {
        featuresScoreSum := featuresScoreSum + c.score;
        featuresCount := featuresCount + 1;
        continue;
      }
      var w := DefaultWeight(c.attribute);
      if w.None? {
        NotWeighed(c);
        continue;
      }
      totalWeight := totalWeight + w.value;
      weightedSum := weightedSum + w.value * c.score;
    }
  }

  method Score(cs: seq<Comparison>) returns (r: real)
    ensures r == ScoreOf(cs)
  {
    if |cs| == 0 {
      return 1.0;
    }
    var totalWeight, weightedSum, featuresScoreSum, featuresCount := Accumulate(cs);
    assert cs[..|cs|] == cs;
    if featuresCount > 0 {
      var avgFeatures := featuresScoreSum / featuresCount as real;
      totalWeight := totalWeight + FEATURES_WEIGHT;
      weightedSum := weightedSum + FEATURES_WEIGHT * avgFeatures;
    }
    if totalWeight == 0.0 {
      return 1.0;
    }
    return weightedSum / totalWeight;
  }

  // ---------------------------------------------------------------- laws of the score

  ghost predicate InRange(cs: seq<Comparison>) {
    forall k :: 0 <= k < |cs| ==> 0.0 <= cs[k].score <= 1.0
  }

  ghost predicate Below(f: Comparison -> real, g: Comparison -> real, cs: seq<Comparison>) {
    forall k :: 0 <= k < |cs| ==> f(cs[k]) <= g(cs[k])
  }

  ghost predicate Same(f: Comparison -> real, g: Comparison -> real, cs: seq<Comparison>) {
    forall k :: 0 <= k < |cs| ==> f(cs[k]) == g(cs[k])
  }

  lemma {:induction false} SumBelow(f: Comparison -> real, g: Comparison -> real, cs: seq<Comparison>)
    requires Below(f, g, cs)
    ensures Sum(f, cs) <= Sum(g, cs)
    ensures Sum(f, cs) == Sum(g, cs) <==> Same(f, g, cs)
  {
    if cs != [] {
      var init := cs[..|cs| - 1];
      assert forall k :: 0 <= k < |init| ==> init[k] == cs[k];
      SumBelow(f, g, init);
      if Same(f, g, init) && f(cs[|cs| - 1]) == g(cs[|cs| - 1]) {
        forall k | 0 <= k < |cs|
          ensures f(cs[k]) == g(cs[k])
        {
          assert k < |init| ==> f(init[k]) == g(init[k]);
        }
      }
    }
  }

  function Zero(c: Comparison): real {
    0.0
  }

  lemma {:induction false} SumZero(cs: seq<Comparison>)
    ensures Sum(Zero, cs) == 0.0
  {
    if cs != [] {
      SumZero(cs[..|cs| - 1]);
    }
  }

  lemma WeightsInRange(cs: seq<Comparison>)
    requires InRange(cs)
    ensures 0.0 <= Sum(Weighted, cs) <= Sum(WeightOf, cs)
    ensures Sum(Weighted, cs) == Sum(WeightOf, cs) <==> Same(Weighted, WeightOf, cs)
  {
    SumZero(cs);
    forall k | 0 <= k < |cs|
      ensures Zero(cs[k]) <= Weighted(cs[k]) <= WeightOf(cs[k])
    {
    }
    SumBelow(Zero, Weighted, cs);
    SumBelow(Weighted, WeightOf, cs);
  }

  lemma FeaturesInRange(cs: seq<Comparison>)
    requires InRange(cs)
    ensures 0.0 <= Sum(FeatureScore, cs) <= Sum(FeatureOne, cs)
    ensures Sum(FeatureScore, cs) == Sum(FeatureOne, cs) <==> Same(FeatureScore, FeatureOne, cs)
  {
    SumZero(cs);
    SumBelow(Zero, FeatureScore, cs);
    SumBelow(FeatureScore, FeatureOne, cs);
  }

  lemma Quotient(a: real, b: real)
    requires b > 0.0 && 0.0 <= a <= b
    ensures 0.0 <= a / b <= 1.0 && (a / b == 1.0 <==> a == b)
  {
    assert (b - a) / b >= 0.0;
    assert a / b + (b - a) / b == 1.0;
  }

  lemma MeanInRange(w: real, s: real, n: real, f: real)
    requires 0.0 <= s <= w && 0.0 <= f <= n
    ensures 0.0 <= Mean(w, s, n, f) <= 1.0
    ensures Mean(w, s, n, f) == 1.0 <==> s == w && f == n
  {
    if n > 0.0 {
      Quotient(f, n);
      var q := f / n;
      Quotient(s + FEATURES_WEIGHT * q, w + FEATURES_WEIGHT);
    } else if w > 0.0 {
      Quotient(s, w);
    }
  }

  ghost predicate FullMarks(cs: seq<Comparison>) {
    forall k :: 0 <= k < |cs| && Counted(cs[k]) ==> cs[k].score == 1.0
  }

  /** The score is between 0 and 1, and 1 exactly when every counted comparison scores 1. */
  lemma ScoreInRange(cs: seq<Comparison>)
    requires InRange(cs)
    ensures 0.0 <= ScoreOf(cs) <= 1.0
    ensures ScoreOf(cs) == 1.0 <==> FullMarks(cs)
  {
    WeightsInRange(cs);
    FeaturesInRange(cs);
    MeanInRange(Sum(WeightOf, cs), Sum(Weighted, cs), Sum(FeatureOne, cs), Sum(FeatureScore, cs));
    forall k | 0 <= k < |cs|
      ensures (Weighted(cs[k]) == WeightOf(cs[k]) && FeatureScore(cs[k]) == FeatureOne(cs[k])) <==>
              (Counted(cs[k]) ==> cs[k].score == 1.0)
    {
      FullMark(cs[k]);
    }
  }

  lemma FullMark(c: Comparison)
    requires 0.0 <= c.score <= 1.0
    ensures (Weighted(c) == WeightOf(c) && FeatureScore(c) == FeatureOne(c)) <==> (Counted(c) ==> c.score == 1.0)
  {
    var w := WeightOf(c);
    assert w * c.score + w * (1.0 - c.score) == w;
  }

  lemma {:induction false} SumConcat(f: Comparison -> real, a: seq<Comparison>, b: seq<Comparison>)
    ensures Sum(f, a + b) == Sum(f, a) + Sum(f, b)
  {
    if b == [] {
      assert a + b == a;
    } else {
      assert (a + b)[..|a + b| - 1] == a + b[..|b| - 1];
      SumConcat(f, a, b[..|b| - 1]);
    }
  }

  lemma {:induction false} SumPermuted(f: Comparison -> real, a: seq<Comparison>, b: seq<Comparison>)
    requires multiset(a) == multiset(b)
    ensures Sum(f, a) == Sum(f, b)
    decreases |a|
  {
    if a == [] {
      assert |multiset(b)| == 0;
    } else {
      var init, last := a[..|a| - 1], a[|a| - 1];
      assert a == init + [last];
      assert multiset(a) == multiset(init) + multiset{last};
      assert last in multiset(b);
      var i :| 0 <= i < |b| && b[i] == last;
      Extracted(b, i);
      assert multiset(init) == multiset(a) - multiset{last};
      assert multiset(b[..i] + b[i + 1..]) == multiset(b) - multiset{last};
      SumPermuted(f, init, b[..i] + b[i + 1..]);
      SumWithout(f, b, i);
    }
  }

  lemma Extracted(b: seq<Comparison>, i: nat)
    requires i < |b|
    ensures multiset(b) == multiset(b[..i] + b[i + 1..]) + multiset{b[i]}
  {
    assert b == b[..i] + ([b[i]] + b[i + 1..]);
  }

  lemma SumWithout(f: Comparison -> real, b: seq<Comparison>, i: nat)
    requires i < |b|
    ensures Sum(f, b) == Sum(f, b[..i] + b[i + 1..]) + f(b[i])
  {
    CutAt(b, i);
    SumAround(f, b[..i], b[i], b[i + 1..]);
  }

  lemma CutAt(b: seq<Comparison>, i: nat)
    requires i < |b|
    ensures b == b[..i] + [b[i]] + b[i + 1..]
  {
  }

  lemma SumAround(f: Comparison -> real, a: seq<Comparison>, c: Comparison, b: seq<Comparison>)
    ensures Sum(f, a + [c] + b) == Sum(f, a + b) + f(c)
  {
    SumConcat(f, a + [c], b);
    SumConcat(f, a, [c]);
    SumConcat(f, a, b);
    SumOne(f, c);
  }

  lemma SumOne(f: Comparison -> real, c: Comparison)
    ensures Sum(f, [c]) == f(c)
  {
    assert [c][..0] == [] && Sum(f, [c][..0]) == 0.0;
  }

  /** The order of the comparisons, which follows map iteration, leaves no trace in the score. */
  lemma ScoreIgnoresOrder(a: seq<Comparison>, b: seq<Comparison>)
    requires multiset(a) == multiset(b)
    ensures ScoreOf(a) == ScoreOf(b)
  {
    SumPermuted(WeightOf, a, b);
    SumPermuted(Weighted, a, b);
    SumPermuted(FeatureOne, a, b);
    SumPermuted(FeatureScore, a, b);
  }

  lemma SumUpdate(f: Comparison -> real, cs: seq<Comparison>, i: nat, c: Comparison)
    requires i < |cs|
    ensures Sum(f, cs[i := c]) == Sum(f, cs) - f(cs[i]) + f(c)
  {
    var updated := cs[i := c];
    assert updated[..i] + updated[i + 1..] == cs[..i] + cs[i + 1..];
    SumWithout(f, cs, i);
    SumWithout(f, updated, i);
  }

  lemma Grows(a: real, b: real, t: real)
    requires a <= b && t > 0.0
    ensures a / t <= b / t
  {
    assert b / t - a / t == (b - a) / t;
  }

  lemma MeanGrows(w: real, s: real, n: real, f: real, s1: real, f1: real)
    requires w >= 0.0 && n >= 0.0 && s <= s1 && f <= f1
    ensures Mean(w, s, n, f) <= Mean(w, s1, n, f1)
  {
    if n > 0.0 {
      Grows(f, f1, n);
      Grows(s + FEATURES_WEIGHT * (f / n), s1 + FEATURES_WEIGHT * (f1 / n), w + FEATURES_WEIGHT);
    } else if w > 0.0 {
      Grows(s, s1, w);
    }
  }

  lemma WeightedGrows(c: Comparison, score: real)
    requires c.score <= score
    ensures Weighted(c) <= Weighted(c.(score := score))
  {
    assert WeightOf(c) * (score - c.score) >= 0.0;
  }

  /** Raising the score of one comparison never lowers the whole. */
  lemma ScoreGrows(cs: seq<Comparison>, i: nat, score: real)
    requires i < |cs| && cs[i].score <= score
    ensures ScoreOf(cs) <= ScoreOf(cs[i := cs[i].(score := score)])
  {
    var c, d := cs[i], cs[i].(score := score);
    SumUpdate(WeightOf, cs, i, d);
    SumUpdate(Weighted, cs, i, d);
    SumUpdate(FeatureOne, cs, i, d);
    SumUpdate(FeatureScore, cs, i, d);
    WeightedGrows(c, score);
    SumsNonNegative(cs);
    MeanGrows(Sum(WeightOf, cs), Sum(Weighted, cs), Sum(FeatureOne, cs), Sum(FeatureScore, cs),
              Sum(Weighted, cs[i := d]), Sum(FeatureScore, cs[i := d]));
  }

  lemma SumsNonNegative(cs: seq<Comparison>)
    ensures Sum(WeightOf, cs) >= 0.0 && Sum(FeatureOne, cs) >= 0.0
  {
    SumZero(cs);
    SumBelow(Zero, WeightOf, cs);
    SumBelow(Zero, FeatureOne, cs);
  }

  // ---------------------------------------------------------------- what a score of 1 means

  /** The targets agree on every attribute of the class and on every feature with a name. */
  ghost predicate InParity(targets: seq<Profile>) {
    Compared(targets).Some? ==> AgreeOnAll(targets, Compared(targets).value) && SameFeatures(targets)
  }

  ghost predicate AgreeOnAll(targets: seq<Profile>, attributes: seq<Attribute>) {
    forall k :: 0 <= k < |attributes| ==> AgreeOn(targets, attributes[k])
  }

  ghost predicate SameFeatures(targets: seq<Profile>) {
    forall key :: KeyOf(targets, key) && key != "" ==> SameFeature(targets, key)
  }

  /** Every attribute a class compares has a weight. */
  lemma ClassIsWeighted(kind: string, k: nat)
    requires ClassAttributes(kind).Some? && k < |ClassAttributes(kind).value|
    ensures DefaultWeight(ClassAttributes(kind).value[k].name).Some?
  {
  }

  lemma ComputeIsFair(targets: seq<Profile>, k: nat)
    requires AllNonNegative(targets) && k < |ComputeAttributes()|
    ensures FairOn(targets, ComputeAttributes()[k])
  {
    NonNegativeFaithful(targets, VCPU);
    NonNegativeFaithful(targets, MemoryGB);
  }

  lemma StorageIsFair(targets: seq<Profile>, k: nat)
    requires AllNonNegative(targets) && k < |StorageAttributes()|
    ensures FairOn(targets, StorageAttributes()[k])
  {
    NonNegativeFaithful(targets, SizeGB);
    NonNegativeFaithful(targets, IOPS);
  }

  lemma DatabaseIsFair(targets: seq<Profile>, k: nat)
    requires AllNonNegative(targets) && k < |DatabaseAttributes()|
    ensures FairOn(targets, DatabaseAttributes()[k])
  {
    NonNegativeFaithful(targets, DatabaseVCPU);
    NonNegativeFaithful(targets, DatabaseMemoryGB);
    NonNegativeFaithful(targets, DatabaseSizeGB);
  }

  lemma ClassIsFair(targets: seq<Profile>, kind: string, k: nat)
    requires AllNonNegative(targets) && ClassAttributes(kind).Some? && k < |ClassAttributes(kind).value|
    ensures FairOn(targets, ClassAttributes(kind).value[k])
  {
    match kind
    case "compute" =>
      if k < |ComputeAttributes()| {
        ComputeIsFair(targets, k);
      } else {
        StorageIsFair(targets, k - |ComputeAttributes()|);
      }
    case "database" => DatabaseIsFair(targets, k);
    case "storage" => StorageIsFair(targets, k);
  }

  /** A feature counts unless its key is empty. */
  lemma FeatureCounts(key: string)
    ensures IsFeature("features." + key) <==> key != ""
    ensures key == "" ==> DefaultWeight("features." + key).None?
  {
    var attribute := "features." + key;
    assert attribute[..|"features."|] == "features.";
  }

  lemma AttributesFull(targets: seq<Profile>, kind: string, cs: seq<Comparison>)
    requires AllNonNegative(targets) && ClassAttributes(kind).Some?
    requires ComparesAll(targets, cs, ClassAttributes(kind).value)
    ensures AllFaithful(cs) && (FullMarks(cs) <==> AgreeOnAll(targets, ClassAttributes(kind).value))
  {
    var attributes := ClassAttributes(kind).value;
    forall k | 0 <= k < |cs|
      ensures Faithful(cs[k]) && (cs[k].score == 1.0 <==> AgreeOn(targets, attributes[k])) && Counted(cs[k])
    {
      assert ComparesAttribute(targets, cs[k], attributes[k]);
      ClassIsFair(targets, kind, k);
      ClassIsWeighted(kind, k);
    }
  }

  lemma FeaturesFull(targets: seq<Profile>, cs: seq<Comparison>)
    requires ComparesFeatures(targets, cs)
    ensures AllFaithful(cs) && (FullMarks(cs) <==> SameFeatures(targets))
  {
    if FullMarks(cs) {
      forall key | KeyOf(targets, key) && key != ""
        ensures SameFeature(targets, key)
      {
        assert Covers(cs, key);
        var k :| 0 <= k < |cs| && cs[k].attribute == "features." + key;
        FeatureIsSame(targets, cs[k], key);
      }
    }
    forall k | 0 <= k < |cs|
      ensures Faithful(cs[k]) && (SameFeatures(targets) && Counted(cs[k]) ==> cs[k].score == 1.0)
    {
      assert ComparesSome(targets, cs[k], {});
      var key :| ComparesKey(targets, cs[k], key);
      FeatureCounts(key);
    }
  }

  lemma FeatureIsSame(targets: seq<Profile>, c: Comparison, key: string)
    requires ComparesSome(targets, c, {}) && c.attribute == "features." + key && key != ""
    ensures Counted(c) && (c.score == 1.0 <==> SameFeature(targets, key))
  {
    var other :| ComparesKey(targets, c, other);
    SameKey(key, other);
    FeatureCounts(key);
  }

  lemma FullMarksConcat(a: seq<Comparison>, b: seq<Comparison>)
    ensures FullMarks(a + b) <==> FullMarks(a) && FullMarks(b)
    ensures AllFaithful(a + b) <==> AllFaithful(a) && AllFaithful(b)
  {
    var all := a + b;
    assert forall k :: 0 <= k < |a| ==> all[k] == a[k];
    assert forall k :: 0 <= k < |b| ==> all[|a| + k] == b[k];
  }

  lemma PartsMeanParity(targets: seq<Profile>, kind: string, a: seq<Comparison>, b: seq<Comparison>)
    requires AllNonNegative(targets) && ClassAttributes(kind).Some?
    requires ComparesAll(targets, a, ClassAttributes(kind).value) && ComparesFeatures(targets, b)
    ensures AllFaithful(a + b)
    ensures FullMarks(a + b) <==> AgreeOnAll(targets, ClassAttributes(kind).value) && SameFeatures(targets)
  {
    AttributesFull(targets, kind, a);
    FeaturesFull(targets, b);
    FullMarksConcat(a, b);
  }

  /** On profiles without negative sizes, full marks on everything counted means parity. */
  lemma FullMarksMeanParity(targets: seq<Profile>, cs: seq<Comparison>)
    requires AllNonNegative(targets) && IsComparison(targets, cs)
    ensures AllFaithful(cs) && (FullMarks(cs) <==> InParity(targets))
  {
    if Compared(targets).Some? {
      var a, b := Parts(targets, cs);
      PartsMeanParity(targets, targets[0].kind, a, b);
    }
  }

  lemma Parts(targets: seq<Profile>, cs: seq<Comparison>) returns (a: seq<Comparison>, b: seq<Comparison>)
    requires Compared(targets).Some? && IsComparison(targets, cs)
    ensures cs == a + b && ComparesAll(targets, a, Compared(targets).value) && ComparesFeatures(targets, b)
  {
    var n := |Compared(targets).value|;
    a, b := cs[..n], cs[n..];
  }

  /** The comparisons of the targets and their score. On profiles without negative sizes the
      score is 1 exactly when the targets agree on every attribute of the class, all of which
      have a weight, and on every feature whose key is not empty. */
  method ParityOf(targets: seq<Profile>) returns (cs: seq<Comparison>, score: real)
    ensures IsComparison(targets, cs) && score == ScoreOf(cs)
    ensures AllNonNegative(targets) ==> 0.0 <= score <= 1.0 && (score == 1.0 <==> InParity(targets))
  {
    cs := BuildComparisons(targets);
    score := Score(cs);
    if AllNonNegative(targets) {
      FullMarksMeanParity(targets, cs);
      assert forall k :: 0 <= k < |cs| ==> Faithful(cs[k]);
      ScoreInRange(cs);
    }
  }

  // ---------------------------------------------------------------- the score in numbers

  /** Where the greatest value is not zero and the least has its sign, the score is the least as
      a fraction of the greatest; a negative least against a positive greatest scores nothing. */
  lemma ClosenessIsRatio(lo: real, hi: real)
    requires lo <= hi
    ensures hi > 0.0 && lo >= 0.0 ==> Closeness(lo, hi) * hi == lo
    ensures hi > 0.0 && lo < 0.0 ==> Closeness(lo, hi) == 0.0
    ensures hi == 0.0 ==> Closeness(lo, hi) == 1.0
    ensures hi < 0.0 ==> Closeness(lo, hi) * hi == lo
  {
    if hi != 0.0 {
      var q := (hi - lo) / hi;
      assert q * hi == hi - lo;
      assert (1.0 - q) * hi == lo;
      FactorSign(1.0 - q, hi);
    }
  }

  lemma FactorSign(q: real, hi: real)
    ensures hi > 0.0 ==> (q >= 0.0 <==> q * hi >= 0.0)
    ensures hi < 0.0 ==> (q >= 0.0 <==> q * hi <= 0.0)
  {
  }

  /** What each attribute reads. */
  lemma ReadsItsField(kind: string, c: Compute, s: Storage, d: Database, features: map<string, bool>)
    ensures var p := Profile(kind, Some(c), Some(s), Some(d), features);
            && VCPU(p) == Some(c.vcpu as real) && MemoryGB(p) == Some(c.memoryGB)
            && Architecture(p) == Some(c.architecture)
            && SizeGB(p) == Some(s.sizeGB as real) && IOPS(p) == Some(s.iops as real) && StorageKind(p) == Some(s.kind)
            && Engine(p) == Some(d.engine) && Version(p) == Some(d.version)
            && DatabaseVCPU(p) == Some(d.compute.vcpu as real) && DatabaseMemoryGB(p) == Some(d.compute.memoryGB)
            && DatabaseSizeGB(p) == Some(d.storage.sizeGB as real)
  {
  }

  lemma SumTwo(f: Comparison -> real, cs: seq<Comparison>)
    requires |cs| == 2
    ensures Sum(f, cs) == f(cs[0]) + f(cs[1])
  {
    assert cs == [cs[0]] + [cs[1]];
    SumConcat(f, [cs[0]], [cs[1]]);
    SumOne(f, cs[0]);
    SumOne(f, cs[1]);
  }

  lemma SumThree(f: Comparison -> real, cs: seq<Comparison>)
    requires |cs| == 3
    ensures Sum(f, cs) == f(cs[0]) + f(cs[1]) + f(cs[2])
  {
    assert cs == cs[..2] + [cs[2]];
    SumConcat(f, cs[..2], [cs[2]]);
    SumTwo(f, cs[..2]);
    SumOne(f, cs[2]);
  }

  /** The comparison of an attribute with this weight. */
  predicate Weighs(c: Comparison, w: real) {
    WeightOf(c) == w && Weighted(c) == w * c.score && FeatureOne(c) == 0.0 && FeatureScore(c) == 0.0
  }

  lemma NotFeature(attribute: string)
    requires attribute != "" && attribute[0] != 'f'
    ensures !IsFeature(attribute)
  {
    assert "features."[0] == 'f';
  }

  lemma WeightsAre(c: Comparison)
    ensures c.attribute == "compute.vCPU" ==> Weighs(c, 0.20)
    ensures c.attribute == "compute.memoryGB" ==> Weighs(c, 0.15)
    ensures c.attribute == "compute.architecture" ==> Weighs(c, 0.05)
    ensures c.attribute == "storage.sizeGB" ==> Weighs(c, 0.10)
    ensures c.attribute == "storage.iops" ==> Weighs(c, 0.10)
    ensures c.attribute == "storage.class" ==> Weighs(c, 0.05)
    ensures c.attribute == "database.engine" ==> Weighs(c, 0.10)
    ensures c.attribute == "database.version" ==> Weighs(c, 0.05)
  {
    if c.attribute != "" && c.attribute[0] != 'f' {
      NotFeature(c.attribute);
    }
  }

  // ---------------------------------------------------------------- features, counted

  /** The feature keys some target has, and those on which all targets agree; the empty key has
      no part in the score. */
  ghost function FeatureNames(targets: seq<Profile>): set<string> {
    set i, key | 0 <= i < |targets| && key in targets[i].features && key != "" :: key
  }

  ghost function AgreedNames(targets: seq<Profile>): set<string> {
    set key | key in FeatureNames(targets) && SameFeature(targets, key)
  }

  /** Comparisons of features only, the keys in `names`, all different, those in `agreed` with
      full marks and the others with none. */
  ghost predicate FeaturesOnly(cs: seq<Comparison>, names: set<string>, agreed: set<string>) {
    && Distinct(Attributes(cs)) && agreed <= names && "" !in names
    && (forall k :: 0 <= k < |cs| ==> FeatureIn(cs[k], names, agreed))
    && (forall key :: key in names ==> Covers(cs, key))
  }

  ghost predicate FeatureIn(c: Comparison, names: set<string>, agreed: set<string>) {
    exists key :: c.attribute == "features." + key && (key == "" || key in names)
                  && (key in names ==> c.score == if key in agreed then 1.0 else 0.0)
  }

  lemma FeatureParts(c: Comparison, key: string, names: set<string>, agreed: set<string>)
    requires "" !in names && FeatureIn(c, names, agreed) && c.attribute == "features." + key
    ensures WeightOf(c) == 0.0 && Weighted(c) == 0.0
    ensures FeatureOne(c) == if key in names then 1.0 else 0.0
    ensures FeatureScore(c) == if key in names && key in agreed then 1.0 else 0.0
  {
    var other :| c.attribute == "features." + other && (other == "" || other in names)
                 && (other in names ==> c.score == if other in agreed then 1.0 else 0.0);
    SameKey(key, other);
    FeatureCounts(key);
  }

  lemma FeaturesInit(cs: seq<Comparison>, names: set<string>, agreed: set<string>, key: string)
    requires cs != [] && FeaturesOnly(cs, names, agreed) && cs[|cs| - 1].attribute == "features." + key
    ensures FeaturesOnly(cs[..|cs| - 1], names - {key}, agreed - {key})
  {
    var init, last := cs[..|cs| - 1], |cs| - 1;
    forall k | 0 <= k < |init|
      ensures FeatureIn(init[k], names - {key}, agreed - {key})
      ensures Attributes(init)[k] == Attributes(cs)[k]
    {
      assert FeatureIn(cs[k], names, agreed);
      assert Attributes(cs)[k] != Attributes(cs)[last];
    }
    forall other | other in names - {key}
      ensures Covers(init, other)
    {
      assert Covers(cs, other);
      var k :| 0 <= k < |cs| && cs[k].attribute == "features." + other;
      if k == last {
        SameKey(other, key);
      }
      assert init[k] == cs[k];
    }
  }

  /** The features contribute one point a name, and one a name agreed on. */
  lemma {:induction false} FeatureSums(cs: seq<Comparison>, names: set<string>, agreed: set<string>)
    requires FeaturesOnly(cs, names, agreed)
    ensures Sum(WeightOf, cs) == 0.0 && Sum(Weighted, cs) == 0.0
    ensures Sum(FeatureOne, cs) == |names| as real && Sum(FeatureScore, cs) == |agreed| as real
    decreases |cs|
  {
    if cs == [] {
      assert forall key :: key in names ==> Covers(cs, key);
      assert names == {} && agreed == {};
    } else {
      var last := cs[|cs| - 1];
      assert FeatureIn(last, names, agreed);
      var key :| last.attribute == "features." + key && (key == "" || key in names);
      FeatureParts(last, key, names, agreed);
      FeaturesInit(cs, names, agreed, key);
      FeatureSums(cs[..|cs| - 1], names - {key}, agreed - {key});
    }
  }

  lemma ComparedFeatures(targets: seq<Profile>, cs: seq<Comparison>)
    requires ComparesFeatures(targets, cs)
    ensures FeaturesOnly(cs, FeatureNames(targets), AgreedNames(targets))
  {
    var names, agreed := FeatureNames(targets), AgreedNames(targets);
    forall k | 0 <= k < |cs|
      ensures FeatureIn(cs[k], names, agreed)
    {
      assert ComparesSome(targets, cs[k], {});
      var key :| ComparesKey(targets, cs[k], key);
      assert key != "" ==> key in names;
    }
    forall key | key in names
      ensures Covers(cs, key)
    {
      assert KeyOf(targets, key);
    }
  }

  /** All targets have the feature switched on, or none has; a missing one is not on. */
  lemma SameFeatureIff(targets: seq<Profile>, key: string)
    ensures SameFeature(targets, key) <==>
            (forall i :: 0 <= i < |targets| ==> (key, true) in targets[i].features.Items) ||
            (forall i :: 0 <= i < |targets| ==> (key, true) !in targets[i].features.Items)
  {
    assert forall i :: 0 <= i < |targets| ==>
             (FeatureOf(targets[i], key) <==> (key, true) in targets[i].features.Items);
  }

  // ---------------------------------------------------------------- each class

  /** `score` is the mean of attributes weighing `weight` and scoring `sum` together, and, if
      there are features, of the fraction of them agreed on, weighing 0.20. */
  ghost predicate MeanWithFeatures(targets: seq<Profile>, score: real, weight: real, sum: real) {
    IsMean(score, weight, sum, |FeatureNames(targets)|, |AgreedNames(targets)|)
  }

  /** The same for `n` features, `m` of them agreed on. */
  predicate IsMean(score: real, weight: real, sum: real, n: nat, m: nat) {
    if n > 0 then score * (weight + 0.20) == sum + 0.20 * (m as real / n as real)
    else if weight > 0.0 then score * weight == sum
    else score == 1.0
  }

  lemma Divided(a: real, b: real)
    requires b != 0.0
    ensures (a / b) * b == a
  {
  }

  lemma MeanIs(targets: seq<Profile>, cs: seq<Comparison>, i: nat, weight: real, sum: real)
    requires i <= |cs| && ComparesFeatures(targets, cs[i..]) && weight >= 0.0
    requires SumsTo(cs[..i], weight, sum)
    ensures MeanWithFeatures(targets, ScoreOf(cs), weight, sum)
  {
    ComparedFeatures(targets, cs[i..]);
    AllSums(cs, i, weight, sum, FeatureNames(targets), AgreedNames(targets));
    ScoreIsMean(cs, weight, sum, |FeatureNames(targets)|, |AgreedNames(targets)|);
  }

  lemma AllSums(cs: seq<Comparison>, i: nat, weight: real, sum: real, names: set<string>, agreed: set<string>)
    requires i <= |cs| && FeaturesOnly(cs[i..], names, agreed) && SumsTo(cs[..i], weight, sum)
    ensures Sum(WeightOf, cs) == weight && Sum(Weighted, cs) == sum
    ensures Sum(FeatureOne, cs) == |names| as real && Sum(FeatureScore, cs) == |agreed| as real
  {
    FeatureSums(cs[i..], names, agreed);
    assert cs == cs[..i] + cs[i..];
    SumConcat(WeightOf, cs[..i], cs[i..]);
    SumConcat(Weighted, cs[..i], cs[i..]);
    SumConcat(FeatureOne, cs[..i], cs[i..]);
    SumConcat(FeatureScore, cs[..i], cs[i..]);
  }

  lemma ScoreIsMean(cs: seq<Comparison>, weight: real, sum: real, n: nat, m: nat)
    requires weight >= 0.0 && Sum(WeightOf, cs) == weight && Sum(Weighted, cs) == sum
    requires Sum(FeatureOne, cs) == n as real && Sum(FeatureScore, cs) == m as real
    ensures IsMean(ScoreOf(cs), weight, sum, n, m)
  {
    MeanEquation(weight, sum, n, m);
  }

  lemma MeanEquation(weight: real, sum: real, n: nat, m: nat)
    requires weight >= 0.0
    ensures IsMean(Mean(weight, sum, n as real, m as real), weight, sum, n, m)
  {
    if n > 0 {
      Divided(sum + 0.20 * (m as real / n as real), weight + 0.20);
    } else if weight > 0.0 {
      Divided(sum, weight);
    }
  }

  /** The comparisons of some attributes, with what they weigh together and score together. */
  ghost predicate SumsTo(part: seq<Comparison>, weight: real, sum: real) {
    && Sum(WeightOf, part) == weight && Sum(Weighted, part) == sum
    && Sum(FeatureOne, part) == 0.0 && Sum(FeatureScore, part) == 0.0
  }

  lemma ThreeWeigh(part: seq<Comparison>, a: real, b: real, c: real)
    requires |part| == 3 && Weighs(part[0], a) && Weighs(part[1], b) && Weighs(part[2], c)
    ensures SumsTo(part, a + b + c, a * part[0].score + b * part[1].score + c * part[2].score)
  {
    SumThree(WeightOf, part);
    SumThree(Weighted, part);
    SumThree(FeatureOne, part);
    SumThree(FeatureScore, part);
  }

  lemma TwoWeigh(part: seq<Comparison>, a: real, b: real)
    requires |part| == 2 && Weighs(part[0], a) && Weighs(part[1], b)
    ensures SumsTo(part, a + b, a * part[0].score + b * part[1].score)
  {
    SumTwo(WeightOf, part);
    SumTwo(Weighted, part);
    SumTwo(FeatureOne, part);
    SumTwo(FeatureScore, part);
  }

  lemma JoinedSums(part: seq<Comparison>, i: nat, v: real, a: real, w: real, b: real)
    requires i <= |part| && SumsTo(part[..i], v, a) && SumsTo(part[i..], w, b)
    ensures SumsTo(part, v + w, a + b)
  {
    assert part == part[..i] + part[i..];
    SumConcat(WeightOf, part[..i], part[i..]);
    SumConcat(Weighted, part[..i], part[i..]);
    SumConcat(FeatureOne, part[..i], part[i..]);
    SumConcat(FeatureScore, part[..i], part[i..]);
  }

  lemma StorageWeighs(targets: seq<Profile>, part: seq<Comparison>)
    requires ComparesAll(targets, part, StorageAttributes())
    ensures SumsTo(part, 0.25, 0.10 * part[0].score + 0.10 * part[1].score + 0.05 * part[2].score)
  {
    forall k | 0 <= k < 3
      ensures part[k].attribute == StorageAttributes()[k].name
    {
      assert ComparesAttribute(targets, part[k], StorageAttributes()[k]);
    }
    WeightsAre(part[0]);
    WeightsAre(part[1]);
    WeightsAre(part[2]);
    ThreeWeigh(part, 0.10, 0.10, 0.05);
  }

  lemma ComputeWeighs(targets: seq<Profile>, part: seq<Comparison>)
    requires ComparesAll(targets, part, ComputeAttributes())
    ensures SumsTo(part, 0.40, 0.20 * part[0].score + 0.15 * part[1].score + 0.05 * part[2].score)
  {
    forall k | 0 <= k < 3
      ensures part[k].attribute == ComputeAttributes()[k].name
    {
      assert ComparesAttribute(targets, part[k], ComputeAttributes()[k]);
    }
    WeightsAre(part[0]);
    WeightsAre(part[1]);
    WeightsAre(part[2]);
    ThreeWeigh(part, 0.20, 0.15, 0.05);
  }

  lemma DatabaseNames(targets: seq<Profile>, part: seq<Comparison>)
    requires ComparesAll(targets, part, DatabaseAttributes())
    ensures Weighs(part[0], 0.10) && Weighs(part[1], 0.05) && Weighs(part[2], 0.20)
    ensures Weighs(part[3], 0.15) && Weighs(part[4], 0.10)
  {
    forall k | 0 <= k < 5
      ensures part[k].attribute == DatabaseAttributes()[k].name
    {
      assert ComparesAttribute(targets, part[k], DatabaseAttributes()[k]);
    }
    WeightsAre(part[0]);
    WeightsAre(part[1]);
    WeightsAre(part[2]);
    WeightsAre(part[3]);
    WeightsAre(part[4]);
  }

  lemma DatabaseHalves(part: seq<Comparison>)
    requires |part| == 5 && Weighs(part[0], 0.10) && Weighs(part[1], 0.05) && Weighs(part[2], 0.20)
    requires Weighs(part[3], 0.15) && Weighs(part[4], 0.10)
    ensures SumsTo(part[..3], 0.35, 0.10 * part[0].score + 0.05 * part[1].score + 0.20 * part[2].score)
    ensures SumsTo(part[3..], 0.25, 0.15 * part[3].score + 0.10 * part[4].score)
  {
    ThreeWeigh(part[..3], 0.10, 0.05, 0.20);
    TwoWeigh(part[3..], 0.15, 0.10);
  }

  lemma DatabaseWeighs(targets: seq<Profile>, part: seq<Comparison>)
    requires ComparesAll(targets, part, DatabaseAttributes())
    ensures SumsTo(part, 0.60, 0.10 * part[0].score + 0.05 * part[1].score + 0.20 * part[2].score
                               + (0.15 * part[3].score + 0.10 * part[4].score))
  {
    DatabaseNames(targets, part);
    DatabaseHalves(part);
    var a := 0.10 * part[0].score + 0.05 * part[1].score + 0.20 * part[2].score;
    JoinedSums(part, 3, 0.35, a, 0.25, 0.15 * part[3].score + 0.10 * part[4].score);
  }

  lemma ComputeParts(targets: seq<Profile>, part: seq<Comparison>)
    requires ComparesAll(targets, part, ComputeAttributes() + StorageAttributes())
    ensures ComparesAll(targets, part[..3], ComputeAttributes())
    ensures ComparesAll(targets, part[3..], StorageAttributes())
  {
    var all := ComputeAttributes() + StorageAttributes();
    forall k | 0 <= k < 3
      ensures ComparesAttribute(targets, part[..3][k], ComputeAttributes()[k])
      ensures ComparesAttribute(targets, part[3..][k], StorageAttributes()[k])
    {
      assert ComparesAttribute(targets, part[k], all[k]) && ComparesAttribute(targets, part[3 + k], all[3 + k]);
    }
  }

  lemma ComputeScore(targets: seq<Profile>, cs: seq<Comparison>)
    requires targets != [] && targets[0].kind == "compute" && IsComparison(targets, cs)
    ensures |cs| >= 6
    ensures MeanWithFeatures(targets, ScoreOf(cs), 0.65,
                             0.20 * cs[0].score + 0.15 * cs[1].score + 0.05 * cs[2].score
                             + (0.10 * cs[3].score + 0.10 * cs[4].score + 0.05 * cs[5].score))
  {
    var part := cs[..6];
    ComputeParts(targets, part);
    ComputeWeighs(targets, part[..3]);
    StorageWeighs(targets, part[3..]);
    JoinedSums(part, 3, 0.40, 0.20 * cs[0].score + 0.15 * cs[1].score + 0.05 * cs[2].score,
               0.25, 0.10 * cs[3].score + 0.10 * cs[4].score + 0.05 * cs[5].score);
    MeanIs(targets, cs, 6, 0.65, Sum(Weighted, part));
  }

  lemma DatabaseScore(targets: seq<Profile>, cs: seq<Comparison>)
    requires targets != [] && targets[0].kind == "database" && IsComparison(targets, cs)
    ensures |cs| >= 5
    ensures MeanWithFeatures(targets, ScoreOf(cs), 0.60,
                             0.10 * cs[0].score + 0.05 * cs[1].score + 0.20 * cs[2].score
                             + (0.15 * cs[3].score + 0.10 * cs[4].score))
  {
    DatabaseWeighs(targets, cs[..5]);
    MeanIs(targets, cs, 5, 0.60, Sum(Weighted, cs[..5]));
  }

  lemma StorageScore(targets: seq<Profile>, cs: seq<Comparison>)
    requires targets != [] && targets[0].kind == "storage" && IsComparison(targets, cs)
    ensures |cs| >= 3
    ensures MeanWithFeatures(targets, ScoreOf(cs), 0.25,
                             0.10 * cs[0].score + 0.10 * cs[1].score + 0.05 * cs[2].score)
  {
    StorageWeighs(targets, cs[..3]);
    MeanIs(targets, cs, 3, 0.25, Sum(Weighted, cs[..3]));
  }

  lemma NetworkScore(targets: seq<Profile>, cs: seq<Comparison>)
    requires targets != [] && targets[0].kind == "network" && IsComparison(targets, cs)
    ensures MeanWithFeatures(targets, ScoreOf(cs), 0.0, 0.0)
  {
    assert cs[..0] == [];
    MeanIs(targets, cs, 0, 0.0, 0.0);
  }

  // ---------------------------------------------------------------- parity in fields

  /** All targets that have a value have the same one. */
  ghost predicate SamePresent<T(!new)>(targets: seq<Profile>, get: Profile -> Option<T>) {
    forall i, j :: 0 <= i < |targets| && 0 <= j < |targets| && get(targets[i]).Some? && get(targets[j]).Some? ==>
                     get(targets[i]) == get(targets[j])
  }

  lemma {:induction false} ValuesHave<T>(targets: seq<Profile>, get: Profile -> Option<T>, i: nat)
    requires i < |targets| && get(targets[i]).Some?
    ensures get(targets[i]).value in Values(targets, get)
  {
    if i < |targets| - 1 {
      ValuesHave(targets[..|targets| - 1], get, i);
    }
  }

  lemma AllEqualIsSame<T(!new)>(targets: seq<Profile>, get: Profile -> Option<T>)
    ensures AllEqual(Values(targets, get)) <==> SamePresent(targets, get)
  {
    var xs := Values(targets, get);
    if SamePresent(targets, get) {
      forall k | 0 <= k < |xs|
        ensures xs[k] == xs[0]
      {
        assert xs[k] in xs && xs[0] in xs;
        ValuesFrom(targets, get, xs[k]);
        ValuesFrom(targets, get, xs[0]);
      }
    }
    if AllEqual(xs) {
      forall i, j | 0 <= i < |targets| && 0 <= j < |targets| && get(targets[i]).Some? && get(targets[j]).Some?
        ensures get(targets[i]) == get(targets[j])
      {
        ValuesHave(targets, get, i);
        ValuesHave(targets, get, j);
      }
    }
  }

  lemma AgreesIsSame(targets: seq<Profile>, a: Attribute)
    ensures a.Numeric? ==> (AgreeOn(targets, a) <==> SamePresent(targets, a.number))
    ensures a.Exact? ==> (AgreeOn(targets, a) <==> SamePresent(targets, a.text))
  {
    if a.Numeric? {
      AllEqualIsSame(targets, a.number);
    } else {
      AllEqualIsSame(targets, a.text);
    }
  }

  lemma AgreeOnThree(targets: seq<Profile>, attributes: seq<Attribute>)
    requires |attributes| == 3
    ensures AgreeOnAll(targets, attributes) <==>
            AgreeOn(targets, attributes[0]) && AgreeOn(targets, attributes[1]) && AgreeOn(targets, attributes[2])
  {
  }

  function ComputePart(): Profile -> Option<Compute> {
    (p: Profile) => p.compute
  }

  function StoragePart(): Profile -> Option<Storage> {
    (p: Profile) => p.storage
  }

  /** What is compared of a database: neither the processor's architecture nor the speed and
      the kind of its storage. */
  function DatabasePart(): Profile -> Option<(string, string, int, real, int)> {
    (p: Profile) =>
      if p.database.None? then None
      else var d := p.database.value; Some((d.engine, d.version, d.compute.vcpu, d.compute.memoryGB, d.storage.sizeGB))
  }

  lemma ComputeAgrees(targets: seq<Profile>)
    ensures AgreeOnAll(targets, ComputeAttributes()) <==> SamePresent(targets, ComputePart())
  {
    AgreeOnThree(targets, ComputeAttributes());
    AgreesIsSame(targets, ComputeAttributes()[0]);
    AgreesIsSame(targets, ComputeAttributes()[1]);
    AgreesIsSame(targets, ComputeAttributes()[2]);
    SameCompute(targets);
  }

  lemma SameCompute(targets: seq<Profile>)
    ensures SamePresent(targets, ComputePart()) <==>
            SamePresent(targets, VCPU) && SamePresent(targets, MemoryGB) && SamePresent(targets, Architecture)
  {
    forall i, j | 0 <= i < |targets| && 0 <= j < |targets| && targets[i].compute.Some? && targets[j].compute.Some?
      ensures targets[i].compute == targets[j].compute <==>
              VCPU(targets[i]) == VCPU(targets[j]) && MemoryGB(targets[i]) == MemoryGB(targets[j]) &&
              Architecture(targets[i]) == Architecture(targets[j])
    {
    }
  }

  lemma StorageAgrees(targets: seq<Profile>)
    ensures AgreeOnAll(targets, StorageAttributes()) <==> SamePresent(targets, StoragePart())
  {
    AgreeOnThree(targets, StorageAttributes());
    AgreesIsSame(targets, StorageAttributes()[0]);
    AgreesIsSame(targets, StorageAttributes()[1]);
    AgreesIsSame(targets, StorageAttributes()[2]);
    SameStorage(targets);
  }

  lemma SameStorage(targets: seq<Profile>)
    ensures SamePresent(targets, StoragePart()) <==>
            SamePresent(targets, SizeGB) && SamePresent(targets, IOPS) && SamePresent(targets, StorageKind)
  {
    forall i, j | 0 <= i < |targets| && 0 <= j < |targets| && targets[i].storage.Some? && targets[j].storage.Some?
      ensures targets[i].storage == targets[j].storage <==>
              SizeGB(targets[i]) == SizeGB(targets[j]) && IOPS(targets[i]) == IOPS(targets[j]) &&
              StorageKind(targets[i]) == StorageKind(targets[j])
    {
    }
  }

  lemma DatabaseAgrees(targets: seq<Profile>)
    ensures AgreeOnAll(targets, DatabaseAttributes()) <==> SamePresent(targets, DatabasePart())
  {
    var attributes := DatabaseAttributes();
    assert AgreeOnAll(targets, attributes) <==>
           AgreeOn(targets, attributes[0]) && AgreeOn(targets, attributes[1]) && AgreeOn(targets, attributes[2]) &&
           AgreeOn(targets, attributes[3]) && AgreeOn(targets, attributes[4]);
    AgreesIsSame(targets, attributes[0]);
    AgreesIsSame(targets, attributes[1]);
    AgreesIsSame(targets, attributes[2]);
    AgreesIsSame(targets, attributes[3]);
    AgreesIsSame(targets, attributes[4]);
    SameDatabase(targets);
  }

  lemma SameDatabase(targets: seq<Profile>)
    ensures SamePresent(targets, DatabasePart()) <==>
            SamePresent(targets, Engine) && SamePresent(targets, Version) && SamePresent(targets, DatabaseVCPU) &&
            SamePresent(targets, DatabaseMemoryGB) && SamePresent(targets, DatabaseSizeGB)
  {
    forall i, j | 0 <= i < |targets| && 0 <= j < |targets| && targets[i].database.Some? && targets[j].database.Some?
      ensures DatabasePart()(targets[i]) == DatabasePart()(targets[j]) <==>
              Engine(targets[i]) == Engine(targets[j]) && Version(targets[i]) == Version(targets[j]) &&
              DatabaseVCPU(targets[i]) == DatabaseVCPU(targets[j]) &&
              DatabaseMemoryGB(targets[i]) == DatabaseMemoryGB(targets[j]) &&
              DatabaseSizeGB(targets[i]) == DatabaseSizeGB(targets[j])
    {
    }
  }

  lemma AgreeOnBoth(targets: seq<Profile>, a: seq<Attribute>, b: seq<Attribute>)
    ensures AgreeOnAll(targets, a + b) <==> AgreeOnAll(targets, a) && AgreeOnAll(targets, b)
  {
    var all := a + b;
    assert forall k :: 0 <= k < |a| ==> all[k] == a[k];
    assert forall k :: 0 <= k < |b| ==> all[|a| + k] == b[k];
  }

  /** Parity, field by field: those targets that state the part a class is about state it
      alike, and all have the same named features. */
  lemma ParityByClass(targets: seq<Profile>)
    requires targets != []
    ensures targets[0].kind == "compute" ==>
              (InParity(targets) <==> SamePresent(targets, ComputePart()) && SamePresent(targets, StoragePart()) &&
                                      SameFeatures(targets))
    ensures targets[0].kind == "database" ==>
              (InParity(targets) <==> SamePresent(targets, DatabasePart()) && SameFeatures(targets))
    ensures targets[0].kind == "storage" ==>
              (InParity(targets) <==> SamePresent(targets, StoragePart()) && SameFeatures(targets))
    ensures targets[0].kind == "network" ==> (InParity(targets) <==> SameFeatures(targets))
    ensures targets[0].kind !in {"compute", "database", "storage", "network"} ==> InParity(targets)
  {
    ComputeAgrees(targets);
    StorageAgrees(targets);
    DatabaseAgrees(targets);
    AgreeOnBoth(targets, ComputeAttributes(), StorageAttributes());
  }

  // ---------------------------------------------------------------- negative sizes

  function Sized(sizeGB: int): Profile {
    Profile("storage", None, Some(Storage(sizeGB, 0, "ssd")), None, map[])
  }

  /** Two volumes of sizes -2 and -1 differ and score 2 on their size. */
  method NegativeSizesScoreAboveOne() returns (c: Comparison)
    ensures !c.allMatch && c.score == 2.0
  {
    var targets := [Sized(-2), Sized(-1)];
    assert targets[..1] == [Sized(-2)] && targets[..1][..0] == [];
    assert Values(targets[..1], SizeGB) == [-2.0];
    assert Values(targets, SizeGB) == [-2.0, -1.0];
    c := NumericCmp("storage.sizeGB", targets, SizeGB);
    var xs := Values(targets, SizeGB);
    assert xs[0] == -2.0 && xs[1] == -1.0 && xs[0] in xs && xs[1] in xs;
    ghost var lo, hi :| IsMin(xs, lo) && IsMax(xs, hi) && c.score == Closeness(lo, hi);
    assert lo == -2.0 && hi == -1.0;
    assert (hi - lo) / hi == -1.0;
  }
}
