/** The files `combine_split_xyz_files` leaves in the output folder, stated
    against the directory listing: which names are written, and what each
    one finally holds. */
module PipelineOutputs {
  import opened Wrappers
  import opened Dicts
  import opened Strings
  import opened Records
  import opened Seqs
  import opened ProcessPipeline
  import opened PipelineProperties

  // ---------------------------------------------------------------------
  // The output folder as a map
  // ---------------------------------------------------------------------

  /** Writing `a` then `b` leaves the files of `a`, overridden by those of
      `b`. */
  lemma {:induction false} FilesConcat(a: seq<Write>, b: seq<Write>)
    ensures Files(a + b) == Files(a) + Files(b)
    decreases |b|
  {
    if |b| == 0 {
      assert a + b == a;
    } else {
      var b' := b[..|b| - 1];
      assert (a + b)[..|a + b| - 1] == a + b';
      FilesConcat(a, b');
    }
  }

  /** `x` is the train or the validation file of sample `s` under head `h`. */
  predicate OutputOf(x: string, s: string, h: string) {
    x == OutputName(TRAIN, s, h) || x == OutputName(VALIDATION, s, h)
  }

  /** The folder holds the split of `g` as the train and validation files
      of sample `s` under head `h`. */
  ghost predicate HoldsSplit(f: map<string, seq<Atoms>>, s: string, h: string, g: Group, e0s: seq<Atoms>, ratio: Ratio)
    requires ratio.den > 0
  {
    && OutputName(TRAIN, s, h) in f && f[OutputName(TRAIN, s, h)] == SplitGroup(g, e0s, ratio).0
    && OutputName(VALIDATION, s, h) in f && f[OutputName(VALIDATION, s, h)] == SplitGroup(g, e0s, ratio).1
  }

  /** The train file and the validation file of one group. */
  lemma GroupFiles(h: string, s: string, g: Group, e0s: seq<Atoms>, ratio: Ratio)
    requires ratio.den > 0
    ensures HoldsSplit(Files(GroupWrites(h, s, g, e0s, ratio)), s, h, g, e0s, ratio)
    ensures forall x :: x in Files(GroupWrites(h, s, g, e0s, ratio)) <==> OutputOf(x, s, h)
  {
    var ws := GroupWrites(h, s, g, e0s, ratio);
    assert ws[..1][..0] == [];
    assert Files(ws[..1]) == map[][ws[0].name := ws[0].records];
    assert Files(ws) == Files(ws[..1])[ws[1].name := ws[1].records];
    assert OutputName(TRAIN, s, h)[0] == 't' && OutputName(VALIDATION, s, h)[0] == 'v';
  }

  /** Output names built from `_`-free parts split back into them. */
  lemma OutputOfParts(x: string, s: string, h: string)
    requires OutputOf(x, s, h) && '_' !in s && ValidHead(h)
    ensures |Split(x, '_')| == 3 && Split(x, '_')[1] == s && Split(x, '_')[2] == h
  {
    if x == OutputName(TRAIN, s, h) {
      NameParts(TRAIN, s, h);
    } else {
      NameParts(VALIDATION, s, h);
    }
  }

  /** A key present in a dictionary is the key of one of its entries. */
  lemma KeyOfEntry<V>(d: Dict<string, V>, k: string)
    requires Get(d, k).Some?
    requires forall j :: 0 <= j < |d| ==> '_' !in d[j].0
    ensures '_' !in k
  {
    GetSome(d, k);
  }

  lemma CombinedNoSeparator()
    ensures '_' !in COMBINED
  {
    assert COMBINED == ['c', 'o', 'm', 'b', 'i', 'n', 'e', 'd'];
  }

  /** A name is the output of one sample only. */
  lemma OutputOfSample(x: string, s1: string, s2: string, h: string)
    requires OutputOf(x, s1, h) && '_' !in s1 && '_' !in s2 && ValidHead(h)
    ensures OutputOf(x, s2, h) ==> s1 == s2
  {
    OutputOfParts(x, s1, h);
    if OutputOf(x, s2, h) {
      OutputOfParts(x, s2, h);
    }
  }

  // ---------------------------------------------------------------------
  // One head
  // ---------------------------------------------------------------------

  /** Read back from its name, `x` is the train or validation file of a
      sample of `samples` under head `h`, or in combined mode of the
      combined group of `h`. */
  predicate NamesGroup(x: string, h: string, samples: Dict<string, Group>, combined: bool) {
    var p := Split(x, '_');
    && |p| == 3 && p[2] == h && OutputOf(x, p[1], h)
    && (Get(samples, p[1]).Some? || (combined && p[1] == COMBINED))
  }

  /** The entries after the first, with the same shape. */
  lemma SamplesTail(samples: Dict<string, Group>)
    requires |samples| > 0 && Wellformed(samples)
    requires forall j :: 0 <= j < |samples| ==> '_' !in samples[j].0
    ensures Wellformed(samples[1..]) && samples[0].0 !in Keys(samples[1..])
    ensures forall j :: 0 <= j < |samples[1..]| ==> '_' !in samples[1..][j].0
  {
    assert forall j :: 0 <= j < |samples[1..]| ==> samples[1..][j] == samples[j + 1];
  }

  /** The per-group files of one head name only groups of that head. */
  lemma {:induction false} SampleFilesDomain(h: string, samples: Dict<string, Group>, e0s: seq<Atoms>, ratio: Ratio)
    requires ratio.den > 0 && ValidHead(h)
    requires forall j :: 0 <= j < |samples| ==> '_' !in samples[j].0
    ensures forall x :: x in Files(SampleWrites(h, samples, e0s, ratio)) ==> NamesGroup(x, h, samples, false)
    decreases |samples|
  {
    if |samples| > 0 {
      var rest := samples[1..];
      var s0, g0 := samples[0].0, samples[0].1;
      assert forall j :: 0 <= j < |rest| ==> rest[j] == samples[j + 1];
      SampleFilesDomain(h, rest, e0s, ratio);
      FilesConcat(GroupWrites(h, s0, g0, e0s, ratio), SampleWrites(h, rest, e0s, ratio));
      GroupFiles(h, s0, g0, e0s, ratio);
      var fr := Files(SampleWrites(h, rest, e0s, ratio));
      forall x | x in Files(SampleWrites(h, samples, e0s, ratio))
        ensures NamesGroup(x, h, samples, false)
      {
        if x in fr {
          assert NamesGroup(x, h, rest, false);
        } else {
          OutputOfParts(x, s0, h);
        }
      }
    }
  }

  /** A split held by the later files, or held by the earlier ones and not
      overridden, is held by the folder. */
  lemma HoldsSplitMerge(fa: map<string, seq<Atoms>>, fb: map<string, seq<Atoms>>, s: string, h: string, g: Group, e0s: seq<Atoms>, ratio: Ratio)
    requires ratio.den > 0
    requires HoldsSplit(fb, s, h, g, e0s, ratio)
      || (HoldsSplit(fa, s, h, g, e0s, ratio) && OutputName(TRAIN, s, h) !in fb && OutputName(VALIDATION, s, h) !in fb)
    ensures HoldsSplit(fa + fb, s, h, g, e0s, ratio)
  {
  }

  /** The first sample's files, then the rest. */
  lemma SampleFilesCons(h: string, samples: Dict<string, Group>, e0s: seq<Atoms>, ratio: Ratio)
    requires ratio.den > 0 && |samples| > 0
    ensures Files(SampleWrites(h, samples, e0s, ratio))
      == Files(GroupWrites(h, samples[0].0, samples[0].1, e0s, ratio)) + Files(SampleWrites(h, samples[1..], e0s, ratio))
  {
    FilesConcat(GroupWrites(h, samples[0].0, samples[0].1, e0s, ratio), SampleWrites(h, samples[1..], e0s, ratio));
  }

  /** No later sample overwrites the first sample's files. */
  lemma FirstSampleKept(h: string, samples: Dict<string, Group>, e0s: seq<Atoms>, ratio: Ratio)
    requires ratio.den > 0 && ValidHead(h) && |samples| > 0 && Wellformed(samples)
    requires forall j :: 0 <= j < |samples| ==> '_' !in samples[j].0
    ensures OutputName(TRAIN, samples[0].0, h) !in Files(SampleWrites(h, samples[1..], e0s, ratio))
    ensures OutputName(VALIDATION, samples[0].0, h) !in Files(SampleWrites(h, samples[1..], e0s, ratio))
  {
    var rest, s0 := samples[1..], samples[0].0;
    SamplesTail(samples);
    SampleFilesDomain(h, rest, e0s, ratio);
    GetNone(rest, s0);
    assert Get(rest, s0).None?;
    OutputOfParts(OutputName(TRAIN, s0, h), s0, h);
    OutputOfParts(OutputName(VALIDATION, s0, h), s0, h);
    assert !NamesGroup(OutputName(TRAIN, s0, h), h, rest, false);
    assert !NamesGroup(OutputName(VALIDATION, s0, h), h, rest, false);
  }

  /** The per-group files of one head: each sample's split under its own
      pair of names. */
  lemma {:induction false} SampleFiles(h: string, samples: Dict<string, Group>, e0s: seq<Atoms>, ratio: Ratio, s: string)
    requires ratio.den > 0 && ValidHead(h) && Wellformed(samples)
    requires forall j :: 0 <= j < |samples| ==> '_' !in samples[j].0
    requires Get(samples, s).Some?
    ensures HoldsSplit(Files(SampleWrites(h, samples, e0s, ratio)), s, h, Get(samples, s).value, e0s, ratio)
    decreases |samples|
  {
    var rest, s0, g0 := samples[1..], samples[0].0, samples[0].1;
    SampleFilesCons(h, samples, e0s, ratio);
    GroupFiles(h, s0, g0, e0s, ratio);
    var f0, fr := Files(GroupWrites(h, s0, g0, e0s, ratio)), Files(SampleWrites(h, rest, e0s, ratio));
    if s != s0 {
      SamplesTail(samples);
      SampleFiles(h, rest, e0s, ratio, s);
      HoldsSplitMerge(f0, fr, s, h, Get(rest, s).value, e0s, ratio);
    } else {
      FirstSampleKept(h, samples, e0s, ratio);
      HoldsSplitMerge(f0, fr, s, h, g0, e0s, ratio);
    }
  }

  /** Everything written for one head: the per-group files, then in combined
      mode the combined pair, which replaces the files of a sample that is
      itself called `combined`. */
  lemma HeadFilesDomain(h: string, samples: Dict<string, Group>, e0s: seq<Atoms>, ratio: Ratio, combined: bool)
    requires ratio.den > 0 && ValidHead(h)
    requires forall j :: 0 <= j < |samples| ==> '_' !in samples[j].0
    ensures forall x :: x in Files(HeadWrites(h, samples, e0s, ratio, combined)) ==> NamesGroup(x, h, samples, combined)
  {
    var ws := SampleWrites(h, samples, e0s, ratio);
    var wc := if combined then GroupWrites(h, COMBINED, Flatten(Values(samples)), e0s, ratio) else [];
    FilesConcat(ws, wc);
    forall x | x in Files(ws + wc)
      ensures NamesGroup(x, h, samples, combined)
    {
      if x in Files(wc) {
        GroupFiles(h, COMBINED, Flatten(Values(samples)), e0s, ratio);
        OutputOfParts(x, COMBINED, h);
      } else {
        SampleFilesDomain(h, samples, e0s, ratio);
      }
    }
  }

  lemma HeadFiles(h: string, samples: Dict<string, Group>, e0s: seq<Atoms>, ratio: Ratio, combined: bool, s: string)
    requires ratio.den > 0 && ValidHead(h) && Wellformed(samples)
    requires forall j :: 0 <= j < |samples| ==> '_' !in samples[j].0
    requires Get(samples, s).Some? && !(combined && s == COMBINED)
    ensures HoldsSplit(Files(HeadWrites(h, samples, e0s, ratio, combined)), s, h, Get(samples, s).value, e0s, ratio)
  {
    var g := Get(samples, s).value;
    SampleFiles(h, samples, e0s, ratio, s);
    KeyOfEntry(samples, s);
    CombinedKeepsSample(h, samples, e0s, ratio, combined, s, g);
  }

  /** The combined pair does not replace the files of another sample. */
  lemma CombinedKeepsSample(h: string, samples: Dict<string, Group>, e0s: seq<Atoms>, ratio: Ratio, combined: bool, s: string, g: Group)
    requires ratio.den > 0 && ValidHead(h) && '_' !in s && !(combined && s == COMBINED)
    requires HoldsSplit(Files(SampleWrites(h, samples, e0s, ratio)), s, h, g, e0s, ratio)
    ensures HoldsSplit(Files(HeadWrites(h, samples, e0s, ratio, combined)), s, h, g, e0s, ratio)
  {
    var ws := SampleWrites(h, samples, e0s, ratio);
    var wc := if combined then GroupWrites(h, COMBINED, Flatten(Values(samples)), e0s, ratio) else [];
    assert HeadWrites(h, samples, e0s, ratio, combined) == ws + wc;
    FilesConcat(ws, wc);
    if combined {
      GroupFiles(h, COMBINED, Flatten(Values(samples)), e0s, ratio);
      OutputOfSample(OutputName(TRAIN, s, h), s, COMBINED, h);
      OutputOfSample(OutputName(VALIDATION, s, h), s, COMBINED, h);
    }
    HoldsSplitMerge(Files(ws), Files(wc), s, h, g, e0s, ratio);
  }

  lemma HeadCombinedFiles(h: string, samples: Dict<string, Group>, e0s: seq<Atoms>, ratio: Ratio)
    requires ratio.den > 0
    ensures HoldsSplit(Files(HeadWrites(h, samples, e0s, ratio, true)), COMBINED, h, Flatten(Values(samples)), e0s, ratio)
  {
    var ws := SampleWrites(h, samples, e0s, ratio);
    var wc := GroupWrites(h, COMBINED, Flatten(Values(samples)), e0s, ratio);
    FilesConcat(ws, wc);
    GroupFiles(h, COMBINED, Flatten(Values(samples)), e0s, ratio);
    HoldsSplitMerge(Files(ws), Files(wc), COMBINED, h, Flatten(Values(samples)), e0s, ratio);
  }

  // ---------------------------------------------------------------------
  // All heads
  // ---------------------------------------------------------------------

  /** Read back from its name, `x` is an output of some head of `gs`. */
  predicate NamesAnyGroup(x: string, gs: Groups, combined: bool) {
    var p := Split(x, '_');
    |p| == 3 && Get(gs, p[2]).Some? && NamesGroup(x, p[2], Get(gs, p[2]).value, combined)
  }

  lemma GroupsTail(gs: Groups)
    requires |gs| > 0 && ValidGroups(gs)
    ensures ValidGroups(gs[1..]) && Get(gs[1..], gs[0].0).None?
    ensures ValidHead(gs[0].0) && Wellformed(gs[0].1)
    ensures forall j :: 0 <= j < |gs[0].1| ==> '_' !in gs[0].1[j].0
  {
    var rest := gs[1..];
    assert forall i :: 0 <= i < |rest| ==> rest[i] == gs[i + 1];
    assert gs[0].0 !in Keys(rest);
    GetNone(rest, gs[0].0);
  }

  /** Every file written names a group of its head, or that head's
      combined pair. */
  lemma {:induction false} AllFilesDomain(gs: Groups, e0s: seq<Atoms>, ratio: Ratio, combined: bool)
    requires ratio.den > 0 && ValidGroups(gs)
    ensures forall x :: x in Files(AllWrites(gs, e0s, ratio, combined)) ==> NamesAnyGroup(x, gs, combined)
    decreases |gs|
  {
    if |gs| > 0 {
      var h0, in0, rest := gs[0].0, gs[0].1, gs[1..];
      GroupsTail(gs);
      AllFilesDomain(rest, e0s, ratio, combined);
      HeadFilesDomain(h0, in0, e0s, ratio, combined);
      FilesConcat(HeadWrites(h0, in0, e0s, ratio, combined), AllWrites(rest, e0s, ratio, combined));
      var fr := Files(AllWrites(rest, e0s, ratio, combined));
      forall x | x in Files(AllWrites(gs, e0s, ratio, combined))
        ensures NamesAnyGroup(x, gs, combined)
      {
        if x in fr {
          var h := Split(x, '_')[2];
          assert NamesAnyGroup(x, rest, combined);
          assert h != h0;
          assert Get(gs, h) == Get(rest, h);
        }
      }
    }
  }

  /** No later head overwrites the first head's files. */
  lemma FirstHeadKept(gs: Groups, e0s: seq<Atoms>, ratio: Ratio, combined: bool, s: string)
    requires ratio.den > 0 && |gs| > 0 && ValidGroups(gs) && '_' !in s
    ensures OutputName(TRAIN, s, gs[0].0) !in Files(AllWrites(gs[1..], e0s, ratio, combined))
    ensures OutputName(VALIDATION, s, gs[0].0) !in Files(AllWrites(gs[1..], e0s, ratio, combined))
  {
    var h0, rest := gs[0].0, gs[1..];
    GroupsTail(gs);
    AllFilesDomain(rest, e0s, ratio, combined);
    OutputOfParts(OutputName(TRAIN, s, h0), s, h0);
    OutputOfParts(OutputName(VALIDATION, s, h0), s, h0);
    assert !NamesAnyGroup(OutputName(TRAIN, s, h0), rest, combined);
    assert !NamesAnyGroup(OutputName(VALIDATION, s, h0), rest, combined);
  }

  /** Each group's split lands in its own pair of files, unless combined
      mode replaces it (a sample called `combined`). */
  lemma {:induction false} AllFiles(gs: Groups, e0s: seq<Atoms>, ratio: Ratio, combined: bool, h: string, s: string, g: Group)
    requires ratio.den > 0 && ValidGroups(gs)
    requires Lookup(gs, h, s) == Some(g) && !(combined && s == COMBINED)
    ensures HoldsSplit(Files(AllWrites(gs, e0s, ratio, combined)), s, h, g, e0s, ratio)
    decreases |gs|
  {
    var h0, in0, rest := gs[0].0, gs[0].1, gs[1..];
    GroupsTail(gs);
    FilesConcat(HeadWrites(h0, in0, e0s, ratio, combined), AllWrites(rest, e0s, ratio, combined));
    var f0, fr := Files(HeadWrites(h0, in0, e0s, ratio, combined)), Files(AllWrites(rest, e0s, ratio, combined));
    if h == h0 {
      assert Get(in0, s) == Some(g);
      HeadFiles(h0, in0, e0s, ratio, combined, s);
      KeyOfEntry(in0, s);
      FirstHeadKept(gs, e0s, ratio, combined, s);
    } else {
      assert Lookup(rest, h, s) == Some(g);
      AllFiles(rest, e0s, ratio, combined, h, s, g);
    }
    HoldsSplitMerge(f0, fr, s, h, g, e0s, ratio);
  }

  /** In combined mode each head's groups, concatenated in sample order,
      are split into `train_combined_<stem>.xyz` and
      `validation_combined_<stem>.xyz`. */
  lemma {:induction false} AllCombinedFiles(gs: Groups, e0s: seq<Atoms>, ratio: Ratio, h: string, samples: Dict<string, Group>)
    requires ratio.den > 0 && ValidGroups(gs) && Get(gs, h) == Some(samples)
    ensures HoldsSplit(Files(AllWrites(gs, e0s, ratio, true)), COMBINED, h, Flatten(Values(samples)), e0s, ratio)
    decreases |gs|
  {
    var h0, in0, rest := gs[0].0, gs[0].1, gs[1..];
    GroupsTail(gs);
    FilesConcat(HeadWrites(h0, in0, e0s, ratio, true), AllWrites(rest, e0s, ratio, true));
    var f0, fr := Files(HeadWrites(h0, in0, e0s, ratio, true)), Files(AllWrites(rest, e0s, ratio, true));
    if h == h0 {
      HeadCombinedFiles(h0, in0, e0s, ratio);
      CombinedNoSeparator();
      FirstHeadKept(gs, e0s, ratio, true, COMBINED);
    } else {
      AllCombinedFiles(rest, e0s, ratio, h, samples);
    }
    HoldsSplitMerge(f0, fr, COMBINED, h, Flatten(Values(samples)), e0s, ratio);
  }
}
