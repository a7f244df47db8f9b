/** The count table of `combine_split_xyz_files`. The loop assigns
    `samples_dict[sample_type] = len(frames)`, so when several files share a
    sample type (as `oxirane_sf-es1.xyz` and `oxirane_sf-es2.xyz` do) the
    table reports only the last of them. `Tally` is the accumulating table
    the reported "number of molecules" evidently means. */
module PipelineCounts {
  import opened Wrappers
  import opened Dicts
  import opened Strings
  import opened Records
  import opened ProcessPipeline
  import opened PipelineProperties
  import opened PipelineTheorems

  // ---------------------------------------------------------------------
  // As written: the last file wins
  // ---------------------------------------------------------------------

  /** Two labelled files of the same sample type: the table holds the size
      of the second, while the files hold the sum. */
  lemma CountOverwritten(f1: SourceFile, f2: SourceFile, filterSf: bool)
    requires Classify(f1.name, filterSf).Some? && Classify(f2.name, filterSf).Some?
    requires Classify(f1.name, filterSf).value.sample == Classify(f2.name, filterSf).value.sample
    requires FileLabelled(f1) && FileLabelled(f2)
    ensures Collect([f1, f2], filterSf).Success?
    ensures Get(Collect([f1, f2], filterSf).value.counts, Classify(f1.name, filterSf).value.sample) == Some(|f2.frames|)
    ensures SampleTotal([f1, f2], filterSf, Classify(f1.name, filterSf).value.sample) == |f1.frames| + |f2.frames|
  {
    var listing := [f1, f2];
    var s := Classify(f1.name, filterSf).value.sample;
    assert listing[..1] == [f1] && [f1][..0] == [];
    assert AllLabelled(listing, filterSf);
    CollectFailsIff(listing, filterSf);
    CollectCounts(listing, filterSf, s);
    assert LastCount(listing, filterSf, s) == Some(|f2.frames|);
    assert SampleTotal([f1], filterSf, s) == |f1.frames|;
  }

  /** The isolated-system preparation writes both states of `oxirane`; with
      three and two configurations the table reports 2 where 5 records
      were loaded. */
  lemma OxiraneCountOverwritten(es1: SourceFile, es2: SourceFile)
    requires es1.name == "oxirane_sf-es1.xyz" && es2.name == "oxirane_sf-es2.xyz"
    requires |es1.frames| == 3 && |es2.frames| == 2
    requires FileLabelled(es1) && FileLabelled(es2)
    ensures Collect([es1, es2], true).Success?
    ensures Get(Collect([es1, es2], true).value.counts, "oxirane") == Some(2)
    ensures SampleTotal([es1, es2], true, "oxirane") == 5
  {
    IsolatedOxiraneKey();
    IsolatedOxiraneEs2Key();
    CountOverwritten(es1, es2, true);
  }

  lemma IsolatedOxiraneEs2Key()
    ensures Classify("oxirane_sf-es2.xyz", true) == Some(Key("sf-es2.xyz", "oxirane"))
  {
    var a, b := "oxirane", "sf-es2.xyz";
    assert EndsWith(b, XYZ) by { assert b[|b| - 4..] == XYZ; }
    assert a + "_" + b == "oxirane_sf-es2.xyz";
    ContainsAt(a + "_" + b, SF_MARKER, 8);
    ClassifyTwoParts(a, b, true);
  }

  // ---------------------------------------------------------------------
  // Corrected: a running total per sample type
  // ---------------------------------------------------------------------

  /** The sample-type rows of the count table with
      `samples_dict[sample_type] += len(frames)`. The `E0s` row is assigned
      once per `E0s.xyz` file in both versions and is left to `LastCount`. */
  function Tally(listing: seq<SourceFile>, filterSf: bool): Dict<string, int>
    decreases |listing|
  {
    if |listing| == 0 then []
    else TallyFile(Tally(listing[..|listing| - 1], filterSf), listing[|listing| - 1], filterSf)
  }

  /** One iteration of the corrected loop. */
  function TallyFile(counts: Dict<string, int>, f: SourceFile, filterSf: bool): Dict<string, int> {
    match Classify(f.name, filterSf)
    case None => counts
    case Some(k) => Bump(counts, k.sample, |f.frames|)
  }

  /** `samples_dict[t] += n`, starting from 0 for a new key. */
  function Bump(counts: Dict<string, int>, t: string, n: nat): Dict<string, int> {
    Put(counts, t, Get(counts, t).GetOr(0) + n)
  }

  lemma BumpGet(counts: Dict<string, int>, t: string, n: nat, s: string)
    ensures Get(Bump(counts, t, n), s) == if t == s then Some(Get(counts, t).GetOr(0) + n) else Get(counts, s)
  {
    GetPut(counts, t, Get(counts, t).GetOr(0) + n, s);
  }

  /** Some grouped file has sample type `s`. */
  ghost predicate HasSample(listing: seq<SourceFile>, filterSf: bool, s: string)
    decreases |listing|
  {
    |listing| > 0 &&
      var k := Classify(listing[|listing| - 1].name, filterSf);
      HasSample(listing[..|listing| - 1], filterSf, s) || (k.Some? && k.value.sample == s)
  }

  /** The last file either adds to row `s` or leaves it alone. */
  predicate Hit(f: SourceFile, filterSf: bool, s: string) {
    var k := Classify(f.name, filterSf);
    k.Some? && k.value.sample == s
  }

  /** One step of the corrected table. */
  lemma TallyStep(counts: Dict<string, int>, f: SourceFile, filterSf: bool, s: string)
    ensures Get(TallyFile(counts, f, filterSf), s)
      == if Hit(f, filterSf, s) then Some(Get(counts, s).GetOr(0) + |f.frames|) else Get(counts, s)
  {
    var k := Classify(f.name, filterSf);
    if k.Some? {
      BumpGet(counts, k.value.sample, |f.frames|, s);
    }
  }

  lemma TallyLast(listing: seq<SourceFile>, filterSf: bool, s: string)
    requires |listing| > 0
    ensures var f := listing[|listing| - 1]; var prev := Get(Tally(listing[..|listing| - 1], filterSf), s);
      Get(Tally(listing, filterSf), s) == if Hit(f, filterSf, s) then Some(prev.GetOr(0) + |f.frames|) else prev
  {
    TallyStep(Tally(listing[..|listing| - 1], filterSf), listing[|listing| - 1], filterSf, s);
  }

  lemma SampleLast(listing: seq<SourceFile>, filterSf: bool, s: string)
    requires |listing| > 0
    ensures var f := listing[|listing| - 1]; var init := listing[..|listing| - 1];
      && HasSample(listing, filterSf, s) == (HasSample(init, filterSf, s) || Hit(f, filterSf, s))
      && SampleTotal(listing, filterSf, s) == SampleTotal(init, filterSf, s) + if Hit(f, filterSf, s) then |f.frames| else 0
  {
  }

  /** Row `s` of the corrected table, read off the listing: absent until a
      file of sample type `s` appears, then the running record count. */
  ghost function Row(listing: seq<SourceFile>, filterSf: bool, s: string): Option<int>
    decreases |listing|
  {
    if |listing| == 0 then None
    else
      var f := listing[|listing| - 1];
      var prev := Row(listing[..|listing| - 1], filterSf, s);
      if Hit(f, filterSf, s) then Some(prev.GetOr(0) + |f.frames|) else prev
  }

  lemma {:induction false} TallyRow(listing: seq<SourceFile>, filterSf: bool, s: string)
    ensures Get(Tally(listing, filterSf), s) == Row(listing, filterSf, s)
    decreases |listing|
  {
    if |listing| > 0 {
      TallyRow(listing[..|listing| - 1], filterSf, s);
      TallyLast(listing, filterSf, s);
    }
  }

  lemma {:induction false} RowTotal(listing: seq<SourceFile>, filterSf: bool, s: string)
    ensures Row(listing, filterSf, s) == if HasSample(listing, filterSf, s) then Some(SampleTotal(listing, filterSf, s)) else None
    decreases |listing|
  {
    if |listing| > 0 {
      var init := listing[..|listing| - 1];
      RowTotal(init, filterSf, s);
      SampleLast(listing, filterSf, s);
      if !HasSample(init, filterSf, s) {
        NoSampleNoTotal(init, filterSf, s);
      }
    }
  }

  /** The corrected table counts every record of every file of a sample
      type, and has a row exactly for the sample types that occur. */
  lemma TallyTotal(listing: seq<SourceFile>, filterSf: bool, s: string)
    ensures Get(Tally(listing, filterSf), s)
      == if HasSample(listing, filterSf, s) then Some(SampleTotal(listing, filterSf, s)) else None
  {
    TallyRow(listing, filterSf, s);
    RowTotal(listing, filterSf, s);
  }

  /** With at most one file per sample type, wherever it is listed, the
      two tables agree. */
  lemma {:induction false} TallyMatchesWhenUnique(listing: seq<SourceFile>, filterSf: bool, s: string)
    requires s != E0S_LABEL
    requires forall i, j :: 0 <= i < j < |listing| && Hit(listing[i], filterSf, s) ==> !Hit(listing[j], filterSf, s)
    ensures Get(Tally(listing, filterSf), s) == LastCount(listing, filterSf, s)
    decreases |listing|
  {
    TallyTotal(listing, filterSf, s);
    if |listing| > 0 {
      var init := listing[..|listing| - 1];
      if HasSample(init, filterSf, s) {
        var i := SampleWitness(init, filterSf, s);
        assert !Hit(listing[|listing| - 1], filterSf, s);
        TallyMatchesWhenUnique(init, filterSf, s);
        TallyLast(listing, filterSf, s);
      } else {
        NoSampleNoTotal(init, filterSf, s);
        NoSampleNoCount(init, filterSf, s);
      }
    }
  }

  /** A sample type present in the listing has a file that carries it. */
  lemma {:induction false} SampleWitness(listing: seq<SourceFile>, filterSf: bool, s: string) returns (i: nat)
    requires HasSample(listing, filterSf, s)
    ensures i < |listing| && Hit(listing[i], filterSf, s)
    decreases |listing|
  {
    var init := listing[..|listing| - 1];
    if Hit(listing[|listing| - 1], filterSf, s) {
      i := |listing| - 1;
    } else {
      i := SampleWitness(init, filterSf, s);
      assert listing[i] == init[i];
    }
  }

  lemma {:induction false} NoSampleNoTotal(listing: seq<SourceFile>, filterSf: bool, s: string)
    requires !HasSample(listing, filterSf, s)
    ensures SampleTotal(listing, filterSf, s) == 0
    decreases |listing|
  {
    if |listing| > 0 {
      NoSampleNoTotal(listing[..|listing| - 1], filterSf, s);
    }
  }

  lemma {:induction false} NoSampleNoCount(listing: seq<SourceFile>, filterSf: bool, s: string)
    requires !HasSample(listing, filterSf, s) && s != E0S_LABEL
    ensures LastCount(listing, filterSf, s) == None
    decreases |listing|
  {
    if |listing| > 0 {
      NoSampleNoCount(listing[..|listing| - 1], filterSf, s);
    }
  }

  /** The corrected sample rows of `samples_info.csv`: the running totals,
      doubled under `duplicate_data`. */
  function CorrectedTable(listing: seq<SourceFile>, opts: Options): Dict<string, int> {
    var counts := Tally(listing, opts.filterSf);
    if opts.duplicate then DoubleCounts(counts) else counts
  }

  /** Every sample row of the corrected table is the number of records the
      group files of that sample type hold after duplication. */
  lemma CorrectedTableTotal(listing: seq<SourceFile>, opts: Options, s: string)
    requires s != E0S_LABEL
    ensures Get(CorrectedTable(listing, opts), s)
      == if HasSample(listing, opts.filterSf, s) then Some(CopyCount(SampleTotal(listing, opts.filterSf, s), opts.duplicate)) else None
  {
    TallyTotal(listing, opts.filterSf, s);
  }
}
