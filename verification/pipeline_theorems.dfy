/** End-to-end statements about `combine_split_xyz_files`: from the
    directory listing to the files in the output folder and the count
    table. */
module PipelineTheorems {
  import opened Wrappers
  import opened Dicts
  import opened Strings
  import opened Records
  import opened Seqs
  import opened ProcessPipeline
  import opened PipelineProperties
  import opened PipelineOutputs

  // ---------------------------------------------------------------------
  // Splits as files
  // ---------------------------------------------------------------------

  /** Files `t` and `v` hold a split of `n` records whose multiset is `m`:
      the first `Cut(ratio, n)` in `t`, the rest in `v`, each followed by
      the reference set `e0s`. */
  ghost predicate IsSplitOf(f: map<string, seq<Atoms>>, t: string, v: string, m: multiset<Atoms>, n: nat, e0s: seq<Atoms>, ratio: Ratio)
    requires ratio.den > 0
  {
    && t in f && v in f
    && |f[t]| == Cut(ratio, n) + |e0s| && |f[v]| == n - Cut(ratio, n) + |e0s|
    && f[t][|f[t]| - |e0s|..] == e0s && f[v][|f[v]| - |e0s|..] == e0s
    && multiset(f[t][..|f[t]| - |e0s|] + f[v][..|f[v]| - |e0s|]) == m
  }

  lemma HoldsSplitIsSplit(f: map<string, seq<Atoms>>, s: string, h: string, g: Group, e0s: seq<Atoms>, ratio: Ratio)
    requires ratio.den > 0 && HoldsSplit(f, s, h, g, e0s, ratio)
    ensures IsSplitOf(f, OutputName(TRAIN, s, h), OutputName(VALIDATION, s, h), multiset(g), |g|, e0s, ratio)
  {
  }

  /** The multiset the pipeline puts in a group whose loaded records are
      `recs`: once, or twice with `duplicate_data`. */
  function Copies(recs: seq<Atoms>, duplicate: bool): multiset<Atoms> {
    if duplicate then multiset(recs) + multiset(recs) else multiset(recs)
  }

  function CopyCount(n: nat, duplicate: bool): nat {
    if duplicate then 2 * n else n
  }

  // ---------------------------------------------------------------------
  // From the listing to the groups that are split
  // ---------------------------------------------------------------------

  /** The groups `Emit` splits. */
  function Emitted(shuffled: Groups, duplicate: bool): Groups {
    if duplicate then Duplicate(shuffled) else shuffled
  }

  lemma EmittedValid(c: Collected, shuffled: Groups, listing: seq<SourceFile>, filterSf: bool, duplicate: bool)
    requires Collect(listing, filterSf) == Success(c) && IsShuffleOf(shuffled, c.groups)
    ensures ValidGroups(Emitted(shuffled, duplicate))
  {
    CollectValid(listing, filterSf);
    ShuffleValid(shuffled, c.groups);
    if duplicate {
      DuplicateValid(shuffled);
    }
  }

  /** A group that reaches the split holds the loaded records of its key,
      permuted, and doubled with `duplicate_data`. */
  lemma EmittedGroup(c: Collected, shuffled: Groups, listing: seq<SourceFile>, filterSf: bool, duplicate: bool, k: Key)
    requires Collect(listing, filterSf) == Success(c) && IsShuffleOf(shuffled, c.groups)
    requires HasKey(listing, filterSf, k)
    ensures Lookup(Emitted(shuffled, duplicate), k.head, k.sample).Some?
    ensures multiset(Lookup(Emitted(shuffled, duplicate), k.head, k.sample).value)
      == Copies(GroupRecords(listing, filterSf, k), duplicate)
    ensures |Lookup(Emitted(shuffled, duplicate), k.head, k.sample).value|
      == CopyCount(|GroupRecords(listing, filterSf, k)|, duplicate)
  {
    var recs := GroupRecords(listing, filterSf, k);
    CollectGroups(listing, filterSf, k);
    ShuffleLookup(shuffled, c.groups, k.head, k.sample);
    var g := Lookup(shuffled, k.head, k.sample).value;
    assert |g| == |multiset(g)| == |multiset(recs)| == |recs|;
    if duplicate {
      DuplicateDoubles(shuffled, k.head, k.sample);
    }
  }

  // ---------------------------------------------------------------------
  // The output folder
  // ---------------------------------------------------------------------

  /** For every key found in the listing, `train_<sample>_<stem>.xyz` and
      `validation_<sample>_<stem>.xyz` together hold exactly the records
      loaded for that key (twice with `duplicate_data`), cut at
      `int(train_ratio * n)`, each followed by the `E0s.xyz` records --
      unless combined mode overwrites them because the sample type is
      itself `combined`. */
  lemma WrittenSplit(listing: seq<SourceFile>, opts: Options, shuffled: Groups, k: Key)
    requires opts.ratio.den > 0 && ShuffleFits(listing, opts.filterSf, shuffled)
    requires CombineSplit(listing, opts, shuffled).Success?
    requires HasKey(listing, opts.filterSf, k) && !(opts.combined && k.sample == COMBINED)
    ensures IsSplitOf(Files(CombineSplit(listing, opts, shuffled).value.writes),
      OutputName(TRAIN, k.sample, k.head), OutputName(VALIDATION, k.sample, k.head),
      Copies(GroupRecords(listing, opts.filterSf, k), opts.duplicate),
      CopyCount(|GroupRecords(listing, opts.filterSf, k)|, opts.duplicate),
      E0sRecords(listing), opts.ratio)
  {
    var c := Collect(listing, opts.filterSf).value;
    var gs := Emitted(shuffled, opts.duplicate);
    CollectE0s(listing, opts.filterSf);
    EmittedValid(c, shuffled, listing, opts.filterSf, opts.duplicate);
    EmittedGroup(c, shuffled, listing, opts.filterSf, opts.duplicate, k);
    var g := Lookup(gs, k.head, k.sample).value;
    assert CombineSplit(listing, opts, shuffled).value.writes == AllWrites(gs, c.e0s, opts.ratio, opts.combined);
    AllFiles(gs, c.e0s, opts.ratio, opts.combined, k.head, k.sample, g);
    HoldsSplitIsSplit(Files(AllWrites(gs, c.e0s, opts.ratio, opts.combined)), k.sample, k.head, g, c.e0s, opts.ratio);
  }

  // ---------------------------------------------------------------------
  // Combined mode
  // ---------------------------------------------------------------------

  /** The labelled records of all grouped files with head key `h`, in
      listing order. */
  ghost function HeadRecords(listing: seq<SourceFile>, filterSf: bool, h: string): seq<Atoms>
    decreases |listing|
  {
    if |listing| == 0 then []
    else
      var f := listing[|listing| - 1];
      var k := Classify(f.name, filterSf);
      HeadRecords(listing[..|listing| - 1], filterSf, h)
        + (if k.Some? && k.value.head == h then LabelAll(f.frames).GetOr([]) else [])
  }

  /** All records held under head `h`, whatever their sample type. */
  ghost function HeadMultiset(gs: Groups, h: string): multiset<Atoms> {
    MultisetUnion(Values(Get(gs, h).GetOr([])))
  }

  lemma {:induction false} PutUnion(d: Dict<string, Group>, s: string, recs: seq<Atoms>)
    ensures MultisetUnion(Values(Put(d, s, Get(d, s).GetOr([]) + recs))) == MultisetUnion(Values(d)) + multiset(recs)
    decreases |d|
  {
    if |d| > 0 && d[0].0 != s {
      PutUnion(d[1..], s, recs);
      assert Values(Put(d, s, Get(d, s).GetOr([]) + recs))[1..] == Values(Put(d[1..], s, Get(d[1..], s).GetOr([]) + recs));
    }
  }

  lemma AddFileHead(gs: Groups, h: string, s: string, recs: seq<Atoms>, h': string)
    ensures Get(AddFile(gs, h, s, recs), h').Some? <==> Get(gs, h').Some? || h' == h
    ensures HeadMultiset(AddFile(gs, h, s, recs), h')
      == HeadMultiset(gs, h') + (if h' == h then multiset(recs) else multiset{})
  {
    var inner := Get(gs, h).GetOr([]);
    var inner' := Put(inner, s, Get(inner, s).GetOr([]) + recs);
    GetPut(gs, h, inner', h');
    PutUnion(inner, s, recs);
  }

  /** Under each head the loop collects exactly the records of the files
      with that head. */
  lemma {:induction false} CollectHeadRecords(listing: seq<SourceFile>, filterSf: bool, h: string)
    requires Collect(listing, filterSf).Success?
    ensures HeadMultiset(Collect(listing, filterSf).value.groups, h) == multiset(HeadRecords(listing, filterSf, h))
    decreases |listing|
  {
    if |listing| > 0 {
      var init, f := listing[..|listing| - 1], listing[|listing| - 1];
      CollectStep(listing, filterSf);
      CollectHeadRecords(init, filterSf, h);
      var c := Collect(init, filterSf).value;
      VisitGroups(c, f, filterSf);
      var k := Classify(f.name, filterSf);
      if k.Some? {
        AddFileHead(c.groups, k.value.head, k.value.sample, LabelAll(f.frames).value, h);
      }
    }
  }

  lemma {:induction false} SamplesShuffledUnion(after: Dict<string, Group>, before: Dict<string, Group>)
    requires SamplesShuffled(after, before)
    ensures MultisetUnion(Values(after)) == MultisetUnion(Values(before))
    decreases |before|
  {
    if |before| > 0 {
      assert SamplesShuffled(after[1..], before[1..]);
      SamplesShuffledUnion(after[1..], before[1..]);
    }
  }

  /** A shuffle keeps every head and the records under it. */
  lemma {:induction false} ShuffleHead(after: Groups, before: Groups, h: string)
    requires IsShuffleOf(after, before)
    ensures Get(after, h).Some? <==> Get(before, h).Some?
    ensures HeadMultiset(after, h) == HeadMultiset(before, h)
    decreases |before|
  {
    if |before| > 0 {
      if before[0].0 == h {
        SamplesShuffledUnion(after[0].1, before[0].1);
      } else {
        assert IsShuffleOf(after[1..], before[1..]);
        ShuffleHead(after[1..], before[1..], h);
      }
    }
  }

  lemma {:induction false} TwiceUnion(d: Dict<string, Group>)
    ensures MultisetUnion(Values(MapValues(d, (s: string, g: Group) => g + g)))
      == MultisetUnion(Values(d)) + MultisetUnion(Values(d))
    decreases |d|
  {
    if |d| > 0 {
      var twice := (s: string, g: Group) => g + g;
      TwiceUnion(d[1..]);
      assert MapValues(d, twice)[1..] == MapValues(d[1..], twice);
    }
  }

  /** Duplicating doubles the records under every head. */
  lemma DuplicateHead(gs: Groups, h: string)
    ensures Get(Duplicate(gs), h).Some? <==> Get(gs, h).Some?
    ensures HeadMultiset(Duplicate(gs), h) == HeadMultiset(gs, h) + HeadMultiset(gs, h)
  {
    var twice := (s: string, g: Group) => g + g;
    var f := (h: string, inner: Dict<string, Group>) => MapValues(inner, twice);
    assert MapValues(gs, f) == Duplicate(gs);
    GetMapValues(gs, f, h);
    if Get(gs, h).Some? {
      TwiceUnion(Get(gs, h).value);
    }
  }

  /** Every head found in the listing is a key of the collected groups. */
  lemma GroupedHeadCollected(listing: seq<SourceFile>, filterSf: bool, h: string)
    requires Collect(listing, filterSf).Success?
    ensures Get(Collect(listing, filterSf).value.groups, h).Some? <==> h in GroupedHeads(listing, filterSf)
  {
    var hs := GroupedHeads(listing, filterSf);
    CollectHeadOrder(listing, filterSf);
    GetNone(Collect(listing, filterSf).value.groups, h);
    DedupSpec(hs);
    if h in hs {
      var i :| 0 <= i < |hs| && hs[i] == h;
      assert h in Dedup(hs);
    }
    if h in Dedup(hs) {
      var i :| 0 <= i < |Dedup(hs)| && Dedup(hs)[i] == h;
      assert h in hs;
    }
  }

  /** In combined mode, for every head found in the listing,
      `train_combined_<stem>.xyz` and `validation_combined_<stem>.xyz`
      together hold exactly the records loaded under that head across all
      sample types (twice with `duplicate_data`), cut at
      `int(train_ratio * n)`, each followed by the `E0s.xyz` records. */
  lemma WrittenCombined(listing: seq<SourceFile>, opts: Options, shuffled: Groups, h: string)
    requires opts.ratio.den > 0 && ShuffleFits(listing, opts.filterSf, shuffled)
    requires CombineSplit(listing, opts, shuffled).Success? && opts.combined
    requires h in GroupedHeads(listing, opts.filterSf)
    ensures IsSplitOf(Files(CombineSplit(listing, opts, shuffled).value.writes),
      OutputName(TRAIN, COMBINED, h), OutputName(VALIDATION, COMBINED, h),
      Copies(HeadRecords(listing, opts.filterSf, h), opts.duplicate),
      CopyCount(|HeadRecords(listing, opts.filterSf, h)|, opts.duplicate),
      E0sRecords(listing), opts.ratio)
  {
    var c := Collect(listing, opts.filterSf).value;
    var gs := Emitted(shuffled, opts.duplicate);
    CollectE0s(listing, opts.filterSf);
    EmittedValid(c, shuffled, listing, opts.filterSf, opts.duplicate);
    GroupedHeadCollected(listing, opts.filterSf, h);
    CollectHeadRecords(listing, opts.filterSf, h);
    ShuffleHead(shuffled, c.groups, h);
    if opts.duplicate {
      DuplicateHead(shuffled, h);
    }
    var recs := HeadRecords(listing, opts.filterSf, h);
    assert HeadMultiset(gs, h) == Copies(recs, opts.duplicate);
    var samples := Get(gs, h).value;
    var g := Flatten(Values(samples));
    FlattenMultiset(Values(samples));
    assert |g| == |multiset(g)| == |Copies(recs, opts.duplicate)| == CopyCount(|recs|, opts.duplicate);
    assert CombineSplit(listing, opts, shuffled).value.writes == AllWrites(gs, c.e0s, opts.ratio, true);
    AllCombinedFiles(gs, c.e0s, opts.ratio, h, samples);
    HoldsSplitIsSplit(Files(AllWrites(gs, c.e0s, opts.ratio, true)), COMBINED, h, g, c.e0s, opts.ratio);
  }

  /** Nothing else is written: every output file is the train or validation
      file of a (sample type, head key) pair found in the listing, or in
      combined mode the combined pair of a head found in the listing. */
  lemma WrittenNames(listing: seq<SourceFile>, opts: Options, shuffled: Groups, x: string)
    requires opts.ratio.den > 0 && ShuffleFits(listing, opts.filterSf, shuffled)
    requires CombineSplit(listing, opts, shuffled).Success?
    requires x in Files(CombineSplit(listing, opts, shuffled).value.writes)
    ensures |Split(x, '_')| == 3
    ensures OutputOf(x, Split(x, '_')[1], Split(x, '_')[2])
    ensures Split(x, '_')[2] in GroupedHeads(listing, opts.filterSf)
    ensures HasKey(listing, opts.filterSf, Key(Split(x, '_')[2], Split(x, '_')[1]))
      || (opts.combined && Split(x, '_')[1] == COMBINED)
  {
    var c := Collect(listing, opts.filterSf).value;
    var gs := Emitted(shuffled, opts.duplicate);
    EmittedValid(c, shuffled, listing, opts.filterSf, opts.duplicate);
    assert CombineSplit(listing, opts, shuffled).value.writes == AllWrites(gs, c.e0s, opts.ratio, opts.combined);
    AllFilesDomain(gs, c.e0s, opts.ratio, opts.combined);
    assert NamesAnyGroup(x, gs, opts.combined);
    var s, h := Split(x, '_')[1], Split(x, '_')[2];
    ShuffleHead(shuffled, c.groups, h);
    if opts.duplicate {
      DuplicateHead(shuffled, h);
    }
    GroupedHeadCollected(listing, opts.filterSf, h);
    if Lookup(gs, h, s).Some? {
      ShuffleLookup(shuffled, c.groups, h, s);
      CollectGroups(listing, opts.filterSf, Key(h, s));
    }
  }

  /** The count table: the size of the last file read for each sample type
      (and of `E0s.xyz` under `E0s`), doubled with `duplicate_data` except
      for `E0s`. */
  lemma WrittenCounts(listing: seq<SourceFile>, opts: Options, shuffled: Groups, tag: string)
    requires opts.ratio.den > 0 && ShuffleFits(listing, opts.filterSf, shuffled)
    requires CombineSplit(listing, opts, shuffled).Success?
    ensures Get(CombineSplit(listing, opts, shuffled).value.table, tag)
      == match LastCount(listing, opts.filterSf, tag)
         case None => None
         case Some(n) => Some(if opts.duplicate && tag != E0S_LABEL then 2 * n else n)
  {
    CollectCounts(listing, opts.filterSf, tag);
  }

  // ---------------------------------------------------------------------
  // The driver's settings
  // ---------------------------------------------------------------------

  /** The module-level driver calls the pipeline with the default ratio
      0.8, `duplicate_data=True`, `filter_sf=True` and
      `return_combined=False`. */
  const DRIVER_OPTIONS: Options := Options(Ratio(4, 5), true, true, false)

  /** Under the driver's settings every group's files hold each of its
      loaded records twice, 80% of them (rounded down) in the train file. */
  lemma DriverSplit(listing: seq<SourceFile>, shuffled: Groups, k: Key)
    requires ShuffleFits(listing, true, shuffled)
    requires CombineSplit(listing, DRIVER_OPTIONS, shuffled).Success?
    requires HasKey(listing, true, k)
    ensures IsSplitOf(Files(CombineSplit(listing, DRIVER_OPTIONS, shuffled).value.writes),
      OutputName(TRAIN, k.sample, k.head), OutputName(VALIDATION, k.sample, k.head),
      multiset(GroupRecords(listing, true, k)) + multiset(GroupRecords(listing, true, k)),
      2 * |GroupRecords(listing, true, k)|, E0sRecords(listing), Ratio(4, 5))
    ensures Cut(Ratio(4, 5), 2 * |GroupRecords(listing, true, k)|) == (8 * |GroupRecords(listing, true, k)|) / 5
  {
    WrittenSplit(listing, DRIVER_OPTIONS, shuffled, k);
    CutIsFloor(Ratio(4, 5), 2 * |GroupRecords(listing, true, k)|);
  }

  /** Under the driver's settings every sample row of the table is twice
      the size of the last file of that sample type, and the `E0s` row is
      the size of `E0s.xyz` itself. */
  lemma DriverCounts(listing: seq<SourceFile>, shuffled: Groups, tag: string)
    requires ShuffleFits(listing, true, shuffled)
    requires CombineSplit(listing, DRIVER_OPTIONS, shuffled).Success?
    ensures Get(CombineSplit(listing, DRIVER_OPTIONS, shuffled).value.table, tag)
      == match LastCount(listing, true, tag)
         case None => None
         case Some(n) => Some(if tag != E0S_LABEL then 2 * n else n)
  {
    WrittenCounts(listing, DRIVER_OPTIONS, shuffled, tag);
  }
}
