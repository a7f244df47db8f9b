/** `combine_split_xyz_files` of `mace-suite/data/process_pipeline.py`: reads a
    directory of extended-XYZ files, groups their configurations by the head
    key (the last `_`-segment of the file name) and the sample type (the first
    `_`-segment), shuffles and optionally duplicates each group, cuts every
    group into a training and a validation part, appends the isolated-atom
    reference set `E0s.xyz` to both, and writes a table of sample counts.

    The directory listing arrives as a sequence of files with the records
    `ase.io.read(path, index=":")` returns for them. The shuffle is not
    computed: the caller supplies the shuffled groups, which must be a
    per-group permutation of the collected ones. */
module ProcessPipeline {
  import opened Wrappers
  import opened Dicts
  import opened Strings
  import opened Records
  import opened Seqs

  const E0S_FILE: string := "E0s.xyz"
  const E0S_LABEL: string := "E0s"
  const XYZ: string := ".xyz"
  const SF_MARKER: string := "sf"
  const TRAIN: string := "train"
  const VALIDATION: string := "validation"
  const COMBINED: string := "combined"

  /** One entry of the input directory with the records stored in it. */
  datatype SourceFile = SourceFile(name: string, frames: seq<Atoms>)

  /** The two labels a file name carries. */
  datatype Key = Key(head: string, sample: string)

  /** The run aborts when a grouped file holds a configuration without an
      attached energy/forces result. */
  datatype Error = MissingResults(file: string)

  type Group = seq<Atoms>

  /** `samples_by_head_type`: head key -> sample type -> records. */
  type Groups = Dict<string, Dict<string, Group>>

  /** The state after the directory loop: the reference set, the groups and
      `samples_dict`, the per-label counts. */
  datatype Collected = Collected(e0s: seq<Atoms>, groups: Groups, counts: Dict<string, int>)

  /** `train_ratio` as the fraction `num / den`. */
  datatype Ratio = Ratio(num: int, den: int)

  datatype Options = Options(ratio: Ratio, duplicate: bool, filterSf: bool, combined: bool)

  /** The files written, in order, and the rows of `samples_info.csv`. */
  datatype Output = Output(writes: seq<Write>, table: Dict<string, int>)

  // ---------------------------------------------------------------------
  // Classifying file names
  // ---------------------------------------------------------------------

  /** The grouping test of the directory loop: an `.xyz` file that, when
      filtering, has `sf` somewhere in its name. */
  predicate IsGrouped(name: string, filterSf: bool) {
    EndsWith(name, XYZ) && (filterSf ==> Contains(name, SF_MARKER))
  }

  /** The key of a grouped file: head key after the last `_`, sample type
      before the first `_`. */
  function Classify(name: string, filterSf: bool): Option<Key> {
    if IsGrouped(name, filterSf) then Some(Key(LastSegment(name, '_'), FirstSegment(name, '_'))) else None
  }

  /** A grouped name is `<sample>_..._<head>`: the sample type is its prefix
      up to the first `_`, the head key its suffix after the last `_`. */
  lemma ClassifySpec(name: string, filterSf: bool)
    ensures var k := Classify(name, filterSf);
      && (k.Some? <==> EndsWith(name, XYZ) && (filterSf ==> Contains(name, SF_MARKER)))
      && (k.Some? ==> '_' !in k.value.head && EndsWith(name, k.value.head))
      && (k.Some? && |k.value.head| < |name| ==> name[|name| - |k.value.head| - 1] == '_')
      && (k.Some? ==> '_' !in k.value.sample && StartsWith(name, k.value.sample))
      && (k.Some? && |k.value.sample| < |name| ==> name[|k.value.sample|] == '_')
      && (k.Some? && '_' !in name ==> k.value.head == name && k.value.sample == name)
  {
    FirstSegmentSpec(name, '_');
    LastSegmentSpec(name, '_');
  }

  // ---------------------------------------------------------------------
  // The directory loop
  // ---------------------------------------------------------------------

  /** The group stored under (`h`, `s`), if any. */
  function Lookup(gs: Groups, h: string, s: string): Option<Group> {
    match Get(gs, h)
    case None => None
    case Some(inner) => Get(inner, s)
  }

  /** Creates the keys if needed and appends `recs` to their group. */
  function AddFile(gs: Groups, h: string, s: string, recs: seq<Atoms>): (r: Groups)
    ensures Lookup(r, h, s) == Some(Lookup(gs, h, s).GetOr([]) + recs)
    ensures forall h', s' :: h' != h || s' != s ==> Lookup(r, h', s') == Lookup(gs, h', s')
    ensures Keys(r) == if h in Keys(gs) then Keys(gs) else Keys(gs) + [h]
  {
    var inner := Get(gs, h).GetOr([]);
    var inner' := Put(inner, s, Get(inner, s).GetOr([]) + recs);
    var r := Put(gs, h, inner');
    forall h': string, s': string
      ensures Lookup(r, h', s') == if h' == h then Get(inner', s') else Lookup(gs, h', s')
    {
      GetPut(gs, h, inner', h');
    }
    forall s': string
      ensures Get(inner', s') == if s' == s then Some(Get(inner, s).GetOr([]) + recs) else Get(inner, s')
    {
      GetPut(inner, s, Get(inner, s).GetOr([]) + recs, s');
    }
    KeysPut(gs, h, inner');
    r
  }

  /** One iteration of the directory loop. */
  function Visit(c: Collected, f: SourceFile, filterSf: bool): Result<Collected, Error> {
    var c1 := if f.name == E0S_FILE
      then c.(e0s := c.e0s + f.frames, counts := Put(c.counts, E0S_LABEL, |f.frames|))
      else c;
    match Classify(f.name, filterSf)
    case None => Success(c1)
    case Some(k) =>
      match LabelAll(f.frames)
      case None => Failure(MissingResults(f.name))
      case Some(labelled) =>
        Success(c1.(groups := AddFile(c1.groups, k.head, k.sample, labelled),
                    counts := Put(c1.counts, k.sample, |f.frames|)))
  }

  /** Every grouped file of the listing has results on all its frames. */
  predicate GroupedLabelled(listing: seq<SourceFile>, filterSf: bool) {
    forall i :: 0 <= i < |listing| && IsGrouped(listing[i].name, filterSf) ==> LabelAll(listing[i].frames).Some?
  }

  /** `i` is the first grouped file of the listing holding a frame without
      calculator results, the file where `get_potential_energy()` raises. */
  predicate FirstUnlabelled(listing: seq<SourceFile>, filterSf: bool, i: int) {
    && 0 <= i < |listing|
    && IsGrouped(listing[i].name, filterSf) && LabelAll(listing[i].frames).None?
    && GroupedLabelled(listing[..i], filterSf)
  }

  /** The directory loop over the listing, in listing order. It gets through
      exactly when every grouped file has results on all its frames, and
      otherwise stops at the first grouped file that does not. */
  function Collect(listing: seq<SourceFile>, filterSf: bool): (r: Result<Collected, Error>)
    ensures r.Success? <==> GroupedLabelled(listing, filterSf)
    ensures r.Failure? ==> exists i :: FirstUnlabelled(listing, filterSf, i) && r.error == MissingResults(listing[i].name)
    decreases |listing|
  {
    if |listing| == 0 then Success(Collected([], [], []))
    else
      GroupedLabelledSnoc(listing, filterSf);
      match Collect(listing[..|listing| - 1], filterSf)
      case Failure(e) =>
        FirstUnlabelledSnoc(listing, filterSf);
        Failure(e)
      case Success(c) =>
        assert listing[..|listing| - 1] == listing[..|listing| - 1][..|listing| - 1];
        Visit(c, listing[|listing| - 1], filterSf)
  }

  lemma GroupedLabelledSnoc(listing: seq<SourceFile>, filterSf: bool)
    requires |listing| > 0
    ensures GroupedLabelled(listing, filterSf) <==>
      && GroupedLabelled(listing[..|listing| - 1], filterSf)
      && (IsGrouped(listing[|listing| - 1].name, filterSf) ==> LabelAll(listing[|listing| - 1].frames).Some?)
  {
    var init := listing[..|listing| - 1];
    assert forall i :: 0 <= i < |init| ==> init[i] == listing[i];
  }

  /** The first failing file of a prefix is the first failing file of the
      whole listing. */
  lemma FirstUnlabelledSnoc(listing: seq<SourceFile>, filterSf: bool)
    requires |listing| > 0
    ensures forall i :: FirstUnlabelled(listing[..|listing| - 1], filterSf, i) ==>
      FirstUnlabelled(listing, filterSf, i) && listing[i] == listing[..|listing| - 1][i]
  {
    var init := listing[..|listing| - 1];
    forall i | FirstUnlabelled(init, filterSf, i)
      ensures FirstUnlabelled(listing, filterSf, i) && listing[i] == init[i]
    {
      assert init[..i] == listing[..i];
    }
  }

  // ---------------------------------------------------------------------
  // Shuffling and duplicating
  // ---------------------------------------------------------------------

  /** `after` is `before` with every group's records permuted: same keys in
      the same order, same multiset per group. */
  ghost predicate IsShuffleOf(after: Groups, before: Groups) {
    && |after| == |before|
    && forall i :: 0 <= i < |before| ==> after[i].0 == before[i].0 && SamplesShuffled(after[i].1, before[i].1)
  }

  ghost predicate SamplesShuffled(after: Dict<string, Group>, before: Dict<string, Group>) {
    && |after| == |before|
    && forall j :: 0 <= j < |before| ==> after[j].0 == before[j].0 && multiset(after[j].1) == multiset(before[j].1)
  }

  /** `group *= 2` for every group. */
  function Duplicate(gs: Groups): (r: Groups)
    ensures Keys(r) == Keys(gs)
    ensures forall h, s :: Lookup(r, h, s) == if Lookup(gs, h, s).Some? then Some(Lookup(gs, h, s).value + Lookup(gs, h, s).value) else None
  {
    var twice := (s: string, g: Group) => g + g;
    var r := MapValues(gs, (h: string, inner: Dict<string, Group>) => MapValues(inner, twice));
    forall h: string, s: string
      ensures Lookup(r, h, s) == if Lookup(gs, h, s).Some? then Some(Lookup(gs, h, s).value + Lookup(gs, h, s).value) else None
    {
        GetMapValues(gs, (h: string, inner: Dict<string, Group>) => MapValues(inner, twice), h);
        if Get(gs, h).Some? {
          GetMapValues(Get(gs, h).value, twice, s);
        }
    }
    KeysMapValues(gs, (h: string, inner: Dict<string, Group>) => MapValues(inner, twice));
    r
  }

  /** Doubles every count except the one labelled `E0s`. */
  function DoubleCounts(counts: Dict<string, int>): (r: Dict<string, int>)
    ensures Keys(r) == Keys(counts)
    ensures forall k :: Get(r, k) == if Get(counts, k).None? then None
      else if k == E0S_LABEL then Get(counts, k) else Some(2 * Get(counts, k).value)
  {
    var f := (k: string, v: int) => if k == E0S_LABEL then v else 2 * v;
    var r := MapValues(counts, f);
    forall k: string
      ensures Get(r, k) == if Get(counts, k).None? then None
        else if k == E0S_LABEL then Get(counts, k) else Some(2 * Get(counts, k).value)
    {
      GetMapValues(counts, f, k);
    }
    KeysMapValues(counts, f);
    r
  }

  // ---------------------------------------------------------------------
  // Splitting
  // ---------------------------------------------------------------------

  /** `int(a / b)`, which truncates toward zero: `q` is the whole number of
      times `b` fits into `|a|`, carrying the sign of `a`. */
  function Truncate(a: int, b: int): (q: int)
    requires b > 0
    ensures a >= 0 ==> 0 <= q && q * b <= a < q * b + b
    ensures a < 0 ==> q <= 0 && (-q) * b <= -a < (-q) * b + b
  {
    if a >= 0 then DivBounds(a, b); a / b else DivBounds(-a, b); -((-a) / b)
  }

  lemma DivBounds(a: nat, b: int)
    requires b > 0
    ensures 0 <= a / b && (a / b) * b <= a < (a / b) * b + b
  {
    assert a == (a / b) * b + a % b;
  }

  /** Where `g[:k]` / `g[k:]` cut a list of length `n`: an index in range
      is kept, a negative one leaves `-k` elements after the cut, and
      anything beyond either end stops at that end. */
  function SliceIndex(k: int, n: nat): (c: nat)
    ensures c <= n
    ensures 0 <= k <= n ==> c == k
    ensures k < 0 && 0 <= n + k ==> c - k == n
    ensures k > n ==> c == n
    ensures n + k < 0 ==> c == 0
  {
    if k < 0 then (if n + k < 0 then 0 else n + k) else if k > n then n else k
  }

  /** A negative slice index counts from the end: it cuts where its
      non-negative counterpart `n + k` does. */
  lemma SliceIndexFromEnd(k: int, n: nat)
    requires k < 0 && 0 <= n + k
    ensures SliceIndex(k, n) == SliceIndex(n + k, n)
  {
  }

  /** The cut for a group of `n` records: `int(train_ratio * n)`, as a
      slice index. */
  function Cut(ratio: Ratio, n: nat): (k: nat)
    requires ratio.den > 0
    ensures k <= n
  {
    SliceIndex(Truncate(ratio.num * n, ratio.den), n)
  }

  /** `(g[:k] + e0s, g[k:] + e0s)` */
  function SplitGroup(g: Group, e0s: seq<Atoms>, ratio: Ratio): (p: (seq<Atoms>, seq<Atoms>))
    requires ratio.den > 0
    ensures |p.0| == Cut(ratio, |g|) + |e0s| && |p.1| == |g| - Cut(ratio, |g|) + |e0s|
    ensures p.0[|p.0| - |e0s|..] == e0s && p.1[|p.1| - |e0s|..] == e0s
    ensures p.0[..|p.0| - |e0s|] + p.1[..|p.1| - |e0s|] == g
  {
    var k := Cut(ratio, |g|);
    var train := g[..k] + e0s;
    var val := g[k..] + e0s;
    assert train[..k] == g[..k] && val[..|g| - k] == g[k..];
    assert g[..k] + g[k..] == g;
    (train, val)
  }

  /** `head[:-4]` */
  function Stem(head: string): string {
    DropLast(head, 4)
  }

  /** `f'{kind}_{sample}_{head[:-4]}.xyz'` */
  function OutputName(kind: string, sample: string, head: string): string {
    kind + "_" + sample + "_" + Stem(head) + XYZ
  }

  /** The two writes for one (head, sample) group. */
  function GroupWrites(head: string, sample: string, g: Group, e0s: seq<Atoms>, ratio: Ratio): (ws: seq<Write>)
    requires ratio.den > 0
  {
    var parts := SplitGroup(g, e0s, ratio);
    [Write(OutputName(TRAIN, sample, head), parts.0), Write(OutputName(VALIDATION, sample, head), parts.1)]
  }

  /** The per-group writes for one head, in sample insertion order. */
  function SampleWrites(head: string, samples: Dict<string, Group>, e0s: seq<Atoms>, ratio: Ratio): (ws: seq<Write>)
    requires ratio.den > 0
    decreases |samples|
  {
    if |samples| == 0 then []
    else GroupWrites(head, samples[0].0, samples[0].1, e0s, ratio) + SampleWrites(head, samples[1..], e0s, ratio)
  }

  /** Everything written for one head: its groups, then, in combined mode,
      the split of the concatenation of its groups. */
  function HeadWrites(head: string, samples: Dict<string, Group>, e0s: seq<Atoms>, ratio: Ratio, combined: bool): seq<Write>
    requires ratio.den > 0
  {
    SampleWrites(head, samples, e0s, ratio)
      + (if combined then GroupWrites(head, COMBINED, Flatten(Values(samples)), e0s, ratio) else [])
  }

  /** All writes, heads in insertion order. */
  function AllWrites(gs: Groups, e0s: seq<Atoms>, ratio: Ratio, combined: bool): seq<Write>
    requires ratio.den > 0
    decreases |gs|
  {
    if |gs| == 0 then []
    else HeadWrites(gs[0].0, gs[0].1, e0s, ratio, combined) + AllWrites(gs[1..], e0s, ratio, combined)
  }

  /** Everything after the shuffle: duplication, splitting, the count table. */
  function Emit(c: Collected, shuffled: Groups, opts: Options): Output
    requires opts.ratio.den > 0
    requires IsShuffleOf(shuffled, c.groups)
  {
    var gs := if opts.duplicate then Duplicate(shuffled) else shuffled;
    var counts := if opts.duplicate then DoubleCounts(c.counts) else c.counts;
    Output(AllWrites(gs, c.e0s, opts.ratio, opts.combined), counts)
  }

  /** The shuffled groups fit the listing: a per-group permutation of what
      the directory loop collects. */
  ghost predicate ShuffleFits(listing: seq<SourceFile>, filterSf: bool, shuffled: Groups) {
    Collect(listing, filterSf).Success? ==> IsShuffleOf(shuffled, Collect(listing, filterSf).value.groups)
  }

  /** `combine_split_xyz_files(listing, ..., train_ratio, duplicate_data,
      filter_sf, return_combined)` with the shuffle supplied. */
  function CombineSplit(listing: seq<SourceFile>, opts: Options, shuffled: Groups): (r: Result<Output, Error>)
    requires opts.ratio.den > 0
    requires ShuffleFits(listing, opts.filterSf, shuffled)
    ensures r.Success? <==> GroupedLabelled(listing, opts.filterSf)
    ensures r.Failure? ==> exists i :: FirstUnlabelled(listing, opts.filterSf, i) && r.error == MissingResults(listing[i].name)
  {
    match Collect(listing, opts.filterSf)
    case Failure(e) => Failure(e)
    case Success(c) => Success(Emit(c, shuffled, opts))
  }

  /** The output directory after the writes: a later write to a name
      replaces an earlier one. */
  function Files(writes: seq<Write>): map<string, seq<Atoms>>
    decreases |writes|
  {
    if |writes| == 0 then map[]
    else Files(writes[..|writes| - 1])[writes[|writes| - 1].name := writes[|writes| - 1].records]
  }
}
