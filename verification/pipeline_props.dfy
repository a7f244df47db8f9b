/** Properties of `combine_split_xyz_files`, stated against reference
    definitions computed straight from the directory listing. */
module PipelineProperties {
  import opened Wrappers
  import opened Dicts
  import opened Strings
  import opened Records
  import opened Seqs
  import opened ProcessPipeline

  // ---------------------------------------------------------------------
  // File names
  // ---------------------------------------------------------------------

  /** A head key is a suffix of a name ending in `.xyz` and holds no `_`, so
      it ends in `.xyz` itself, and `head[:-4]` strips exactly that. */
  lemma HeadEndsInXyz(name: string, filterSf: bool)
    requires Classify(name, filterSf).Some?
    ensures EndsWith(Classify(name, filterSf).value.head, XYZ)
    ensures Stem(Classify(name, filterSf).value.head) + XYZ == Classify(name, filterSf).value.head
  {
    ClassifySpec(name, filterSf);
    var h := Classify(name, filterSf).value.head;
    assert name[|name| - 4..] == XYZ;
    if |h| >= 4 {
      assert h[|h| - 4..] == name[|name| - 4..];
    }
  }

  /** Output names split back into their three parts. */
  lemma NameParts(kind: string, sample: string, head: string)
    requires '_' !in kind && '_' !in sample && '_' !in head && EndsWith(head, XYZ)
    ensures Split(OutputName(kind, sample, head), '_') == [kind, sample, head]
  {
    assert Stem(head) + XYZ == head;
    var parts := [kind, sample, head];
    assert parts[1..] == [sample, head] && parts[1..][1..] == [head];
    assert Join([head], '_') == head;
    assert Join([sample, head], '_') == sample + "_" + head;
    assert Join(parts, '_') == kind + "_" + (sample + "_" + head);
    assert OutputName(kind, sample, head) == kind + "_" + sample + "_" + (Stem(head) + XYZ);
    assert OutputName(kind, sample, head) == Join(parts, '_');
    SplitJoin([kind, sample, head], '_');
  }

  /** Distinct (kind, sample, head) triples give distinct output files. */
  lemma OutputNameInjective(k1: string, s1: string, h1: string, k2: string, s2: string, h2: string)
    requires '_' !in k1 && '_' !in s1 && '_' !in h1 && EndsWith(h1, XYZ)
    requires '_' !in k2 && '_' !in s2 && '_' !in h2 && EndsWith(h2, XYZ)
    requires OutputName(k1, s1, h1) == OutputName(k2, s2, h2)
    ensures k1 == k2 && s1 == s2 && h1 == h2
  {
    NameParts(k1, s1, h1);
    NameParts(k2, s2, h2);
  }

  /** The key of a name with exactly one `_`. */
  lemma ClassifyTwoParts(a: string, b: string, filterSf: bool)
    requires '_' !in a && '_' !in b && EndsWith(b, XYZ)
    ensures Classify(a + "_" + b, filterSf)
      == if filterSf && !Contains(a + "_" + b, SF_MARKER) then None else Some(Key(b, a))
  {
    var s := a + "_" + b;
    assert s[..|a|] == a && s[|a|] == '_';
    FirstSegmentUnique(s, '_', a);
    assert s[|s| - |b|..] == b && s[|s| - |b| - 1] == '_';
    LastSegmentUnique(s, '_', b);
    assert s[|s| - 4..] == b[|b| - 4..];
  }

  /** `E0s.xyz` has no `sf`, so with filtering it is only the reference set;
      without filtering it is also grouped, under head and sample `E0s.xyz`. */
  lemma E0sFileGrouping()
    ensures Classify(E0S_FILE, true) == None
    ensures Classify(E0S_FILE, false) == Some(Key(E0S_FILE, E0S_FILE))
  {
    NotContainsChar(E0S_FILE, SF_MARKER, 'f');
    ClassifySpec(E0S_FILE, false);
  }

  /** The isolated-system data preparation writes `oxirane_sf-es1.xyz`:
      with filtering it is grouped as sample `oxirane` under head
      `sf-es1.xyz`, and split into `train_oxirane_sf-es1.xyz` and
      `validation_oxirane_sf-es1.xyz`. */
  lemma IsolatedOxiraneKey()
    ensures Classify("oxirane_sf-es1.xyz", true) == Some(Key("sf-es1.xyz", "oxirane"))
  {
    var a, b := "oxirane", "sf-es1.xyz";
    assert EndsWith(b, XYZ) by { assert b[|b| - 4..] == XYZ; }
    assert a + "_" + b == "oxirane_sf-es1.xyz";
    ContainsAt(a + "_" + b, SF_MARKER, 8);
    ClassifyTwoParts(a, b, true);
  }

  lemma IsolatedOxiraneOutputs()
    ensures OutputName(TRAIN, "oxirane", "sf-es1.xyz") == "train_oxirane_sf-es1.xyz"
    ensures OutputName(VALIDATION, "oxirane", "sf-es1.xyz") == "validation_oxirane_sf-es1.xyz"
  {
    assert Stem("sf-es1.xyz") == "sf-es1";
  }

  /** The molecular-dynamics data preparation writes `oxirane_md-es1.xyz` and
      `oxirane_md-es2.xyz`; neither contains `sf`, so with `filter_sf=True`
      (as the top-level loop calls it) neither is ever grouped. */
  lemma MolecularDynamicsEs1Filtered()
    ensures Classify("oxirane_md-es1.xyz", true) == None
  {
    ClassifyTwoParts("oxirane", "md-es1.xyz", true);
    NotContainsChar("oxirane_md-es1.xyz", SF_MARKER, 'f');
  }

  lemma MolecularDynamicsEs2Filtered()
    ensures Classify("oxirane_md-es2.xyz", true) == None
  {
    ClassifyTwoParts("oxirane", "md-es2.xyz", true);
    NotContainsChar("oxirane_md-es2.xyz", SF_MARKER, 'f');
  }

  /** Without the filter the same file would be grouped. */
  lemma MolecularDynamicsUnfiltered()
    ensures Classify("oxirane_md-es1.xyz", false) == Some(Key("md-es1.xyz", "oxirane"))
  {
    var a, b := "oxirane", "md-es1.xyz";
    assert EndsWith(b, XYZ) by { assert b[|b| - 4..] == XYZ; }
    assert a + "_" + b == "oxirane_md-es1.xyz";
    ClassifyTwoParts(a, b, false);
  }

  // ---------------------------------------------------------------------
  // Reference definitions over the listing
  // ---------------------------------------------------------------------

  /** Every configuration of every grouped file carries an energy/forces
      result. */
  ghost predicate AllLabelled(listing: seq<SourceFile>, filterSf: bool) {
    forall i :: 0 <= i < |listing| && IsGrouped(listing[i].name, filterSf) ==> FileLabelled(listing[i])
  }

  ghost predicate FileLabelled(f: SourceFile) {
    forall j :: 0 <= j < |f.frames| ==> HasResults(f.frames[j])
  }

  /** Some file of the listing has key `k`. */
  ghost predicate HasKey(listing: seq<SourceFile>, filterSf: bool, k: Key)
    decreases |listing|
  {
    |listing| > 0 &&
      (HasKey(listing[..|listing| - 1], filterSf, k) || Classify(listing[|listing| - 1].name, filterSf) == Some(k))
  }

  /** The labelled records of all files with key `k`, files in listing
      order, records in file order. */
  ghost function GroupRecords(listing: seq<SourceFile>, filterSf: bool, k: Key): (r: seq<Atoms>)
    ensures !HasKey(listing, filterSf, k) ==> r == []
    decreases |listing|
  {
    if |listing| == 0 then []
    else
      var init := listing[..|listing| - 1];
      var f := listing[|listing| - 1];
      GroupRecords(init, filterSf, k)
        + (if Classify(f.name, filterSf) == Some(k) then LabelAll(f.frames).GetOr([]) else [])
  }

  /** The head keys of the grouped files, in listing order, repeats kept. */
  function GroupedHeads(listing: seq<SourceFile>, filterSf: bool): seq<string>
    decreases |listing|
  {
    if |listing| == 0 then []
    else
      var k := Classify(listing[|listing| - 1].name, filterSf);
      GroupedHeads(listing[..|listing| - 1], filterSf) + (if k.Some? then [k.value.head] else [])
  }

  /** The records of every file named `E0s.xyz`, in listing order. */
  function E0sRecords(listing: seq<SourceFile>): seq<Atoms>
    decreases |listing|
  {
    if |listing| == 0 then []
    else
      var f := listing[|listing| - 1];
      E0sRecords(listing[..|listing| - 1]) + (if f.name == E0S_FILE then f.frames else [])
  }

  /** The value of the last assignment `samples_dict[tag] = len(frames)`. */
  ghost function LastCount(listing: seq<SourceFile>, filterSf: bool, tag: string): Option<int>
    decreases |listing|
  {
    if |listing| == 0 then None
    else
      var f := listing[|listing| - 1];
      var k := Classify(f.name, filterSf);
      if (k.Some? && k.value.sample == tag) || (f.name == E0S_FILE && tag == E0S_LABEL) then Some(|f.frames|)
      else LastCount(listing[..|listing| - 1], filterSf, tag)
  }

  /** The total number of records in grouped files of sample type `s`. */
  ghost function SampleTotal(listing: seq<SourceFile>, filterSf: bool, s: string): nat
    decreases |listing|
  {
    if |listing| == 0 then 0
    else
      var f := listing[|listing| - 1];
      var k := Classify(f.name, filterSf);
      SampleTotal(listing[..|listing| - 1], filterSf, s) + (if k.Some? && k.value.sample == s then |f.frames| else 0)
  }

  // ---------------------------------------------------------------------
  // The directory loop against the references
  // ---------------------------------------------------------------------

  lemma AllLabelledPrefix(listing: seq<SourceFile>, filterSf: bool)
    requires |listing| > 0
    ensures AllLabelled(listing, filterSf) <==>
      && AllLabelled(listing[..|listing| - 1], filterSf)
      && (IsGrouped(listing[|listing| - 1].name, filterSf) ==> FileLabelled(listing[|listing| - 1]))
  {
    var init := listing[..|listing| - 1];
    assert forall i :: 0 <= i < |init| ==> init[i] == listing[i];
  }

  /** The loop aborts exactly when a grouped file holds a configuration
      without calculator results. */
  lemma {:induction false} CollectFailsIff(listing: seq<SourceFile>, filterSf: bool)
    ensures Collect(listing, filterSf).Failure? <==> !AllLabelled(listing, filterSf)
    decreases |listing|
  {
    if |listing| > 0 {
      CollectFailsIff(listing[..|listing| - 1], filterSf);
      AllLabelledPrefix(listing, filterSf);
    }
  }

  /** What one successful step of the loop does to the groups. */
  lemma VisitGroups(c: Collected, f: SourceFile, filterSf: bool)
    requires Visit(c, f, filterSf).Success?
    ensures Classify(f.name, filterSf).None? ==> Visit(c, f, filterSf).value.groups == c.groups
    ensures Classify(f.name, filterSf).Some? ==>
      && LabelAll(f.frames).Some?
      && Visit(c, f, filterSf).value.groups
         == AddFile(c.groups, Classify(f.name, filterSf).value.head, Classify(f.name, filterSf).value.sample, LabelAll(f.frames).value)
  {
  }

  /** One step of the loop: a successful run over the listing is a
      successful run over all but its last file, then `Visit`. */
  lemma CollectStep(listing: seq<SourceFile>, filterSf: bool)
    requires |listing| > 0 && Collect(listing, filterSf).Success?
    ensures Collect(listing[..|listing| - 1], filterSf).Success?
    ensures Collect(listing, filterSf)
      == Visit(Collect(listing[..|listing| - 1], filterSf).value, listing[|listing| - 1], filterSf)
  {
  }

  /** How the reference records grow by one file. */
  lemma GroupRecordsStep(listing: seq<SourceFile>, filterSf: bool, k: Key)
    requires |listing| > 0
    ensures var init, f := listing[..|listing| - 1], listing[|listing| - 1];
      if Classify(f.name, filterSf) == Some(k) then
        && HasKey(listing, filterSf, k)
        && GroupRecords(listing, filterSf, k) == GroupRecords(init, filterSf, k) + LabelAll(f.frames).GetOr([])
      else
        && HasKey(listing, filterSf, k) == HasKey(init, filterSf, k)
        && GroupRecords(listing, filterSf, k) == GroupRecords(init, filterSf, k)
  {
  }

  /** Each group holds exactly the labelled records of the files with its
      key, concatenated in listing order; no other group exists. */
  lemma {:induction false} CollectGroups(listing: seq<SourceFile>, filterSf: bool, k: Key)
    requires Collect(listing, filterSf).Success?
    ensures Lookup(Collect(listing, filterSf).value.groups, k.head, k.sample)
      == if HasKey(listing, filterSf, k) then Some(GroupRecords(listing, filterSf, k)) else None
    decreases |listing|
  {
    if |listing| > 0 {
      var init := listing[..|listing| - 1];
      var f := listing[|listing| - 1];
      CollectStep(listing, filterSf);
      CollectGroups(init, filterSf, k);
      GroupRecordsStep(listing, filterSf, k);
      var c := Collect(init, filterSf).value;
      VisitGroups(c, f, filterSf);
    }
  }

  /** Head keys appear in order of first appearance in the listing. */
  lemma {:induction false} CollectHeadOrder(listing: seq<SourceFile>, filterSf: bool)
    requires Collect(listing, filterSf).Success?
    ensures Keys(Collect(listing, filterSf).value.groups) == Dedup(GroupedHeads(listing, filterSf))
    decreases |listing|
  {
    if |listing| > 0 {
      var init := listing[..|listing| - 1];
      var f := listing[|listing| - 1];
      CollectStep(listing, filterSf);
      CollectHeadOrder(init, filterSf);
      var c := Collect(init, filterSf).value;
      VisitGroups(c, f, filterSf);
      var k := Classify(f.name, filterSf);
      var hs := GroupedHeads(listing, filterSf);
      if k.Some? {
        assert hs == GroupedHeads(init, filterSf) + [k.value.head];
        assert hs[..|hs| - 1] == GroupedHeads(init, filterSf);
      } else {
        assert hs == GroupedHeads(init, filterSf);
        assert Collect(listing, filterSf).value.groups == c.groups;
      }
    }
  }

  /** The reference set is the concatenation of the `E0s.xyz` records. */
  lemma {:induction false} CollectE0s(listing: seq<SourceFile>, filterSf: bool)
    requires Collect(listing, filterSf).Success?
    ensures Collect(listing, filterSf).value.e0s == E0sRecords(listing)
    decreases |listing|
  {
    if |listing| > 0 {
      CollectE0s(listing[..|listing| - 1], filterSf);
    }
  }

  /** `samples_dict[tag]` holds the size of the LAST file written under that
      tag: counts are assigned, not accumulated. */
  lemma {:induction false} CollectCounts(listing: seq<SourceFile>, filterSf: bool, tag: string)
    requires Collect(listing, filterSf).Success?
    ensures Get(Collect(listing, filterSf).value.counts, tag) == LastCount(listing, filterSf, tag)
    decreases |listing|
  {
    if |listing| > 0 {
      var init := listing[..|listing| - 1];
      var f := listing[|listing| - 1];
      CollectCounts(init, filterSf, tag);
      var c := Collect(init, filterSf).value;
      var counts1 := if f.name == E0S_FILE then Put(c.counts, E0S_LABEL, |f.frames|) else c.counts;
      if f.name == E0S_FILE {
        GetPut(c.counts, E0S_LABEL, |f.frames|, tag);
      }
      var k := Classify(f.name, filterSf);
      if k.Some? {
        GetPut(counts1, k.value.sample, |f.frames|, tag);
      }
    }
  }

  // ---------------------------------------------------------------------
  // Shape of the groups
  // ---------------------------------------------------------------------

  /** A head key as the loop produces it: no `_`, ending in `.xyz`. */
  predicate ValidHead(h: string) {
    '_' !in h && EndsWith(h, XYZ)
  }

  /** Keys unique at both levels, all head and sample keys free of `_`, all
      head keys ending in `.xyz`. */
  ghost predicate ValidGroups(gs: Groups) {
    && Wellformed(gs)
    && (forall i :: 0 <= i < |gs| ==> Wellformed(gs[i].1))
    && (forall i :: 0 <= i < |gs| ==> ValidHead(gs[i].0))
    && (forall i, j :: 0 <= i < |gs| && 0 <= j < |gs[i].1| ==> '_' !in gs[i].1[j].0)
  }

  lemma AddFileValid(gs: Groups, h: string, s: string, recs: seq<Atoms>)
    requires ValidGroups(gs) && ValidHead(h) && '_' !in s
    ensures ValidGroups(AddFile(gs, h, s, recs))
  {
    var inner := Get(gs, h).GetOr([]);
    if Get(gs, h).Some? {
      GetSome(gs, h);
    }
    assert Wellformed(inner) && forall j :: 0 <= j < |inner| ==> '_' !in inner[j].0;
    var g := Get(inner, s).GetOr([]) + recs;
    var inner' := Put(inner, s, g);
    PutWellformed(inner, s, g);
    PutEntries(inner, s, g);
    PutWellformed(gs, h, inner');
    PutEntries(gs, h, inner');
  }

  lemma {:induction false} CollectValid(listing: seq<SourceFile>, filterSf: bool)
    requires Collect(listing, filterSf).Success?
    ensures ValidGroups(Collect(listing, filterSf).value.groups)
    decreases |listing|
  {
    if |listing| > 0 {
      var init := listing[..|listing| - 1];
      var f := listing[|listing| - 1];
      CollectValid(init, filterSf);
      var k := Classify(f.name, filterSf);
      if k.Some? {
        ClassifySpec(f.name, filterSf);
        HeadEndsInXyz(f.name, filterSf);
        AddFileValid(Collect(init, filterSf).value.groups, k.value.head, k.value.sample, LabelAll(f.frames).value);
      }
    }
  }

  // ---------------------------------------------------------------------
  // Shuffling and duplicating
  // ---------------------------------------------------------------------

  lemma {:induction false} ShuffledSamplesGet(after: Dict<string, Group>, before: Dict<string, Group>, s: string)
    requires SamplesShuffled(after, before)
    ensures Get(after, s).Some? <==> Get(before, s).Some?
    ensures Get(after, s).Some? ==> multiset(Get(after, s).value) == multiset(Get(before, s).value)
    decreases |before|
  {
    if |before| > 0 && before[0].0 != s {
      ShuffledSamplesGet(after[1..], before[1..], s);
    }
  }

  /** A shuffle keeps every key and every group's multiset of records. */
  lemma {:induction false} ShuffleLookup(after: Groups, before: Groups, h: string, s: string)
    requires IsShuffleOf(after, before)
    ensures Lookup(after, h, s).Some? <==> Lookup(before, h, s).Some?
    ensures Lookup(after, h, s).Some? ==> multiset(Lookup(after, h, s).value) == multiset(Lookup(before, h, s).value)
    decreases |before|
  {
    if |before| > 0 {
      if before[0].0 == h {
        ShuffledSamplesGet(after[0].1, before[0].1, s);
      } else {
        assert IsShuffleOf(after[1..], before[1..]);
        ShuffleLookup(after[1..], before[1..], h, s);
      }
    }
  }

  lemma ShuffleValid(after: Groups, before: Groups)
    requires IsShuffleOf(after, before) && ValidGroups(before)
    ensures ValidGroups(after)
  {
    assert forall i :: 0 <= i < |after| ==> after[i].0 == before[i].0;
    forall i | 0 <= i < |after|
      ensures Wellformed(after[i].1)
      ensures forall j :: 0 <= j < |after[i].1| ==> '_' !in after[i].1[j].0
    {
      assert SamplesShuffled(after[i].1, before[i].1);
      assert forall j :: 0 <= j < |after[i].1| ==> after[i].1[j].0 == before[i].1[j].0;
    }
  }

  lemma DuplicateValid(gs: Groups)
    requires ValidGroups(gs)
    ensures ValidGroups(Duplicate(gs))
  {
    var twice := (s: string, g: Group) => g + g;
    var r := MapValues(gs, (h: string, inner: Dict<string, Group>) => MapValues(inner, twice));
    assert r == Duplicate(gs);
    forall i | 0 <= i < |r|
      ensures r[i].0 == gs[i].0 && Wellformed(r[i].1)
      ensures forall j :: 0 <= j < |r[i].1| ==> '_' !in r[i].1[j].0
    {
      assert r[i].1 == MapValues(gs[i].1, twice);
    }
  }

  /** With `duplicate_data`, every group becomes `g + g`: its multiset
      doubles and its length exactly doubles. */
  lemma DuplicateDoubles(gs: Groups, h: string, s: string)
    requires Lookup(gs, h, s).Some?
    ensures Lookup(Duplicate(gs), h, s).Some?
    ensures |Lookup(Duplicate(gs), h, s).value| == 2 * |Lookup(gs, h, s).value|
    ensures multiset(Lookup(Duplicate(gs), h, s).value) == multiset(Lookup(gs, h, s).value) + multiset(Lookup(gs, h, s).value)
  {
  }

  // ---------------------------------------------------------------------
  // The cut
  // ---------------------------------------------------------------------

  /** For a ratio in [0, 1] the cut is `floor(ratio * n)` and needs no
      clamping. */
  lemma CutIsFloor(ratio: Ratio, n: nat)
    requires ratio.den > 0 && 0 <= ratio.num <= ratio.den
    ensures Cut(ratio, n) == (ratio.num * n) / ratio.den
  {
    var a := ratio.num * n;
    assert 0 <= a <= ratio.den * n by {
      NonNegProduct(ratio.num, n);
      ProductBelow(ratio.num, ratio.den, n);
    }
    var k := Truncate(a, ratio.den);
    assert 0 <= k <= n by {
      DivBelow(a, ratio.den, n);
    }
    assert SliceIndex(k, n) == k;
  }

  lemma NonNegProduct(x: int, n: nat)
    requires x >= 0
    ensures x * n >= 0
  {
  }

  lemma ProductBelow(x: int, d: int, n: nat)
    requires 0 <= x <= d
    ensures x * n <= d * n
  {
    assert d * n - x * n == (d - x) * n;
    NonNegProduct(d - x, n);
  }

  lemma DivBelow(a: nat, d: int, n: nat)
    requires d > 0 && a <= d * n
    ensures a / d <= n
  {
  }
}
