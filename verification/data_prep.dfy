/** The two oxirane `data_prep.py` scripts. Each walks a directory of ORCA
    runs, sorts the runs into the two excited states by the number after the
    first `_` of the folder name, writes one file per state, and then builds
    the isolated-atom reference set (`E0s.xyz`) from the species of one
    example configuration. The isolated-system script finds the runs
    directly in its input directory; the molecular-dynamics script finds
    state folders there, each holding one run folder per snapshot. */
module DataPrep {
  import opened Wrappers
  import opened Strings
  import opened Seqs
  import opened Records

  /** One entry of `Path.iterdir()`: a plain file, or a directory with the
      entries it holds. */
  datatype Entry = File(name: string) | Dir(name: string, entries: seq<Entry>)

  datatype Variant = Isolated | MolecularDynamics

  function InputDir(v: Variant): string {
    match v
    case Isolated => "oxirane/isolated_system/energies"
    case MolecularDynamics => "oxirane/molecular_dynamics/snapshots_energies"
  }

  function OutDir(v: Variant): string {
    match v
    case Isolated => "mace-suite/data/unprocessed_datasets/oxirane/isolated"
    case MolecularDynamics => "mace-suite/data/unprocessed_datasets/oxirane/molecular_dynamics"
  }

  /** The per-state output files. */
  function Es1File(v: Variant): string {
    match v
    case Isolated => "oxirane_sf-es1.xyz"
    case MolecularDynamics => "oxirane_md-es1.xyz"
  }

  function Es2File(v: Variant): string {
    match v
    case Isolated => "oxirane_sf-es2.xyz"
    case MolecularDynamics => "oxirane_md-es2.xyz"
  }

  /** `Path(dir) / name` and the f-string `f'{dir}/{name}'` alike. */
  function Child(dir: string, name: string): string {
    dir + "/" + name
  }

  // ---------------------------------------------------------------------
  // State index of a folder name
  // ---------------------------------------------------------------------

  /** `int(name.split('_')[1])`: `None` where Python raises `IndexError`
      (no `_` in the name) or `ValueError` (not an integer). */
  function StateIndex(name: string): (r: Option<int>)
    ensures r == if '_' in name then ParseInt(FirstSegment(AfterFirst(name, '_'), '_')) else None
  {
    var parts := Split(name, '_');
    SecondPartIff(name, '_');
    if |parts| < 2 then None else ParseInt(parts[1])
  }

  /** A name without `_` has no state index. */
  lemma StateIndexNoSeparator(name: string)
    requires '_' !in name
    ensures StateIndex(name) == None
  {
  }

  /** A name `<prefix>_<n>` or `<prefix>_<n>_<more>` has state index `n`:
      the parse inverts the naming. */
  lemma StateIndexOf(prefix: string, n: int, suffix: string)
    requires '_' !in prefix
    requires suffix == "" || suffix[0] == '_'
    ensures StateIndex(prefix + "_" + IntToString(n) + suffix) == Some(n)
  {
    var digits := IntToString(n);
    assert '_' !in digits by {
      if n < 0 {
        assert digits == "-" + NatToString(-n);
      }
    }
    var t := digits + suffix;
    var name := prefix + "_" + digits + suffix;
    assert name == prefix + ['_'] + t;
    SplitAfterPart(prefix, t, '_');
    var parts := Split(name, '_');
    assert parts == [prefix] + Split(t, '_');
    assert Split(t, '_')[0] == digits by {
      if suffix == "" {
        assert t == digits;
        SplitNoSeparator(digits, '_');
      } else {
        assert t == digits + ['_'] + suffix[1..];
        SplitAfterPart(digits, suffix[1..], '_');
      }
    }
    assert |parts| >= 2 && parts[1] == digits;
    ParseIntToString(n);
  }

  /** An entry sorted into state `k`: a directory whose name parses to `k`. */
  predicate InState(e: Entry, k: int) {
    e.Dir? && StateIndex(e.name) == Some(k)
  }

  // ---------------------------------------------------------------------
  // Bucketing, isolated-system script
  // ---------------------------------------------------------------------

  /** The state-`k` bucket: the run directories of state `k`, loaded in
      listing order. */
  function RunRecords(dir: string, runs: seq<Entry>, k: int, load: string -> Atoms): seq<Atoms>
    decreases |runs|
  {
    if |runs| == 0 then []
    else
      var e := runs[|runs| - 1];
      RunRecords(dir, runs[..|runs| - 1], k, load) + (if InState(e, k) then [load(Child(dir, e.name))] else [])
  }

  /** The loop of the isolated-system script: skip files and unparsable
      names, append index 1 and 2 to their buckets, drop the rest. */
  method BucketRuns(dir: string, runs: seq<Entry>, load: string -> Atoms) returns (es1: seq<Atoms>, es2: seq<Atoms>)
    ensures es1 == RunRecords(dir, runs, 1, load)
    ensures es2 == RunRecords(dir, runs, 2, load)
  {
    es1, es2 := [], [];
    for i := 0 to |runs|
      invariant es1 == RunRecords(dir, runs[..i], 1, load)
      invariant es2 == RunRecords(dir, runs[..i], 2, load)
    {
      var run := runs[i];
      assert runs[..i + 1][..i] == runs[..i];
      if !run.Dir? {
        continue;
      }
      var idx := StateIndex(run.name);
      if idx.None? {
        continue;
      }
      if idx.value == 1 {
        es1 := es1 + [load(Child(dir, run.name))];
      } else if idx.value == 2 {
        es2 := es2 + [load(Child(dir, run.name))];
      }
    }
    assert runs[..|runs|] == runs;
  }

  /** A record is in the state-`k` bucket exactly when it was loaded from a
      run directory of state `k`; the bucket has at most one record per
      entry. */
  lemma {:induction false} RunRecordsSpec(dir: string, runs: seq<Entry>, k: int, load: string -> Atoms)
    ensures |RunRecords(dir, runs, k, load)| <= |runs|
    ensures forall x :: x in RunRecords(dir, runs, k, load) <==>
      exists i :: 0 <= i < |runs| && InState(runs[i], k) && load(Child(dir, runs[i].name)) == x
    decreases |runs|
  {
    if |runs| > 0 {
      var init := runs[..|runs| - 1];
      RunRecordsSpec(dir, init, k, load);
      assert forall i :: 0 <= i < |init| ==> init[i] == runs[i];
    }
  }

  // ---------------------------------------------------------------------
  // Bucketing, molecular-dynamics script
  // ---------------------------------------------------------------------

  /** The sub-directories of one state folder, loaded in order; plain files
      are passed over. */
  function SubdirRecords(dir: string, entries: seq<Entry>, load: string -> Atoms): seq<Atoms>
    decreases |entries|
  {
    if |entries| == 0 then []
    else
      var e := entries[|entries| - 1];
      SubdirRecords(dir, entries[..|entries| - 1], load) + (if e.Dir? then [load(Child(dir, e.name))] else [])
  }

  /** The state-`k` bucket: the run folders of every state folder of state
      `k`, folder after folder. */
  function SnapshotRecords(dir: string, folders: seq<Entry>, k: int, load: string -> Atoms): seq<Atoms>
    decreases |folders|
  {
    if |folders| == 0 then []
    else
      var f := folders[|folders| - 1];
      SnapshotRecords(dir, folders[..|folders| - 1], k, load)
        + (if InState(f, k) then SubdirRecords(Child(dir, f.name), f.entries, load) else [])
  }

  /** The inner loop over one state folder. */
  method LoadSubdirs(dir: string, entries: seq<Entry>, load: string -> Atoms, bucket: seq<Atoms>) returns (r: seq<Atoms>)
    ensures r == bucket + SubdirRecords(dir, entries, load)
  {
    r := bucket;
    for j := 0 to |entries|
      invariant r == bucket + SubdirRecords(dir, entries[..j], load)
    {
      assert entries[..j + 1][..j] == entries[..j];
      if entries[j].Dir? {
        r := r + [load(Child(dir, entries[j].name))];
      }
    }
    assert entries[..|entries|] == entries;
  }

  /** The loop of the molecular-dynamics script: a state folder of index 1
      or 2 has its run folders appended to that bucket; any other entry is
      skipped whole. */
  method BucketSnapshots(dir: string, folders: seq<Entry>, load: string -> Atoms) returns (es1: seq<Atoms>, es2: seq<Atoms>)
    ensures es1 == SnapshotRecords(dir, folders, 1, load)
    ensures es2 == SnapshotRecords(dir, folders, 2, load)
  {
    es1, es2 := [], [];
    for i := 0 to |folders|
      invariant es1 == SnapshotRecords(dir, folders[..i], 1, load)
      invariant es2 == SnapshotRecords(dir, folders[..i], 2, load)
    {
      var folder := folders[i];
      assert folders[..i + 1][..i] == folders[..i];
      if !folder.Dir? {
        continue;
      }
      var idx := StateIndex(folder.name);
      if idx.None? {
        continue;
      }
      if idx.value == 1 {
        es1 := LoadSubdirs(Child(dir, folder.name), folder.entries, load, es1);
      } else if idx.value == 2 {
        es2 := LoadSubdirs(Child(dir, folder.name), folder.entries, load, es2);
      }
    }
    assert folders[..|folders|] == folders;
  }

  lemma {:induction false} SubdirRecordsSpec(dir: string, entries: seq<Entry>, load: string -> Atoms)
    ensures forall x :: x in SubdirRecords(dir, entries, load) <==>
      exists j :: 0 <= j < |entries| && entries[j].Dir? && load(Child(dir, entries[j].name)) == x
    decreases |entries|
  {
    if |entries| > 0 {
      var init := entries[..|entries| - 1];
      SubdirRecordsSpec(dir, init, load);
      assert forall j :: 0 <= j < |init| ==> init[j] == entries[j];
    }
  }

  /** A record is in the state-`k` bucket exactly when it was loaded from a
      run folder inside a state folder of state `k`. */
  lemma {:induction false} SnapshotRecordsSpec(dir: string, folders: seq<Entry>, k: int, load: string -> Atoms)
    ensures forall x :: x in SnapshotRecords(dir, folders, k, load) <==>
      exists i, j :: 0 <= i < |folders| && InState(folders[i], k) && 0 <= j < |folders[i].entries|
        && folders[i].entries[j].Dir? && load(Child(Child(dir, folders[i].name), folders[i].entries[j].name)) == x
    decreases |folders|
  {
    if |folders| > 0 {
      var init := folders[..|folders| - 1];
      var f := folders[|folders| - 1];
      SnapshotRecordsSpec(dir, init, k, load);
      assert forall i :: 0 <= i < |init| ==> init[i] == folders[i];
      if InState(f, k) {
        SubdirRecordsSpec(Child(dir, f.name), f.entries, load);
      }
    }
  }

  /** A state folder outside state `k` adds nothing to its bucket, however
      many runs it holds. */
  lemma SkippedFolder(dir: string, folders: seq<Entry>, f: Entry, k: int, load: string -> Atoms)
    requires !InState(f, k)
    ensures SnapshotRecords(dir, folders + [f], k, load) == SnapshotRecords(dir, folders, k, load)
  {
    assert (folders + [f])[..|folders|] == folders;
  }

  /** Both buckets of a script. */
  function Buckets(v: Variant, listing: seq<Entry>, load: string -> Atoms): (seq<Atoms>, seq<Atoms>) {
    match v
    case Isolated => (RunRecords(InputDir(v), listing, 1, load), RunRecords(InputDir(v), listing, 2, load))
    case MolecularDynamics => (SnapshotRecords(InputDir(v), listing, 1, load), SnapshotRecords(InputDir(v), listing, 2, load))
  }

  // ---------------------------------------------------------------------
  // Example and species
  // ---------------------------------------------------------------------

  /** The first configuration of state 1, else of state 2, else the
      `RuntimeError` naming the input directory. */
  function PickExample(es1: seq<Atoms>, es2: seq<Atoms>, source: string): (r: Result<Atoms, string>)
    ensures r.Failure? <==> |es1| == 0 && |es2| == 0
    ensures r.Success? ==> r.value == (es1 + es2)[0]
    ensures r.Failure? ==> r.error == "No SF data found in '" + source + "'."
  {
    if |es1| > 0 then Success(es1[0])
    else if |es2| > 0 then Success(es2[0])
    else Failure("No SF data found in '" + source + "'.")
  }

  /** `order` is the order in which the set of `symbols` is iterated: each
      distinct symbol once. */
  predicate Enumerates(order: seq<string>, symbols: seq<string>) {
    && Distinct(order)
    && (forall i :: 0 <= i < |order| ==> order[i] in symbols)
    && (forall j :: 0 <= j < |symbols| ==> symbols[j] in order)
  }

  /** An enumeration of a set has the set's size. */
  lemma EnumerationSize(order: seq<string>, symbols: seq<string>)
    requires Enumerates(order, symbols)
    ensures |order| == |set a | a in symbols|
  {
    DistinctCardinality(order);
    assert (set a | a in order) == (set a | a in symbols);
  }

  lemma {:induction false} DistinctCardinality<T>(s: seq<T>)
    requires Distinct(s)
    ensures |set x | x in s| == |s|
    decreases |s|
  {
    if |s| > 0 {
      var init := s[..|s| - 1];
      assert Distinct(init);
      DistinctCardinality(init);
      assert (set x | x in s) == (set x | x in init) + {s[|s| - 1]};
      assert s[|s| - 1] !in init;
    }
  }

  // ---------------------------------------------------------------------
  // Isolated-atom calculations
  // ---------------------------------------------------------------------

  const ORCA_TASK: string := "SP"
  const ORCA_FUNC: string := "wB97M-D3BJ"
  const ORCA_BASIS: string := "def2-TZVPPD"
  const E0S_DIR: string := "oxirane/isolated_system/single_point_energies"
  const E0S_FILE: string := "E0s.xyz"
  const CONFIG_TYPE: string := "config_type"
  const ISOLATED_ATOM: string := "IsolatedAtom"

  /** Spin multiplicity requested for a lone atom. */
  function Multiplicity(atom: string): nat {
    if atom == "H" || atom == "N" then 2 else 1
  }

  /** Electrons of the neutral atoms the oxirane data contain. */
  function Electrons(atom: string): Option<nat> {
    if atom == "H" then Some(1)
    else if atom == "C" then Some(6)
    else if atom == "N" then Some(7)
    else if atom == "O" then Some(8)
    else None
  }

  /** For hydrogen, carbon, nitrogen and oxygen the requested multiplicity
      is even exactly when the electron count is odd, as every spin state
      of the atom requires. */
  lemma MultiplicityParity(atom: string)
    requires Electrons(atom).Some?
    ensures Multiplicity(atom) % 2 == 0 <==> Electrons(atom).value % 2 == 1
  {
  }

  /** One ORCA calculation the script asks for. */
  datatype Run = Run(directory: string, symbols: seq<string>, simpleInput: string, mult: nat)

  /** `orca_run(model, directory, task, basis_set, func, mult)`: the simple
      input line reads `"{task} {basis_set} {func}"`. */
  function OrcaRun(symbols: seq<string>, directory: string, task: string, basisSet: string, func: string, mult: nat): Run {
    Run(directory, symbols, task + " " + basisSet + " " + func, mult)
  }

  function CalcDir(atom: string): string {
    Child(E0S_DIR, atom)
  }

  /** The call for one atom, with the arguments in the scripts' order: the
      functional lands in `basis_set` and the basis in `func`. */
  function AtomRun(atom: string): Run {
    OrcaRun([atom], CalcDir(atom), ORCA_TASK, ORCA_FUNC, ORCA_BASIS, Multiplicity(atom))
  }

  /** The two swapped arguments meet the two swapped slots, so ORCA still
      reads task, functional, basis. */
  lemma AtomRunInput(atom: string)
    ensures AtomRun(atom).simpleInput == ORCA_TASK + " " + ORCA_FUNC + " " + ORCA_BASIS
    ensures AtomRun(atom).simpleInput == "SP wB97M-D3BJ def2-TZVPPD"
  {
  }

  /** No species directory exists yet: a first run of the script. */
  predicate NoneExist(order: seq<string>, existing: set<string>) {
    forall i :: 0 <= i < |order| ==> CalcDir(order[i]) !in existing
  }

  /** Every species directory exists: a re-run after a complete one. */
  predicate AllExist(order: seq<string>, existing: set<string>) {
    forall i :: 0 <= i < |order| ==> CalcDir(order[i]) in existing
  }

  /** The calculations issued for `order`: one per atom whose directory does
      not yet exist, in order. */
  function E0Runs(order: seq<string>, existing: set<string>): (r: seq<Run>)
    ensures |r| <= |order|
    decreases |order|
  {
    if |order| == 0 then []
    else
      var a := order[|order| - 1];
      E0Runs(order[..|order| - 1], existing) + (if CalcDir(a) in existing then [] else [AtomRun(a)])
  }

  /** The existence check is a cache: a first run of the script starts one
      calculation per species, and a re-run after a complete one starts
      none. */
  lemma {:induction false} E0RunsCaching(order: seq<string>, existing: set<string>)
    ensures NoneExist(order, existing) ==> |E0Runs(order, existing)| == |order|
    ensures AllExist(order, existing) ==> E0Runs(order, existing) == []
    decreases |order|
  {
    if |order| > 0 {
      var init := order[..|order| - 1];
      E0RunsCaching(init, existing);
      assert NoneExist(order, existing) ==> NoneExist(init, existing);
      assert AllExist(order, existing) ==> AllExist(init, existing);
    }
  }

  /** A calculation is issued for an atom exactly when it is a species and
      its directory does not exist yet. */
  lemma {:induction false} E0RunsSpec(order: seq<string>, existing: set<string>)
    ensures forall a :: AtomRun(a) in E0Runs(order, existing) <==> a in order && CalcDir(a) !in existing
    decreases |order|
  {
    if |order| > 0 {
      var init := order[..|order| - 1];
      E0RunsSpec(init, existing);
      assert order == init + [order[|order| - 1]];
      forall a, b | AtomRun(a) == AtomRun(b)
        ensures a == b
      {
        assert AtomRun(a).symbols[0] == a;
      }
    }
  }

  /** The record loaded from an atom's directory, tagged as an
      isolated-atom reference. */
  function Tag(t: Atoms, energy: Payload): (r: Atoms)
    ensures r.symbols == t.symbols && r.arrays == t.arrays && r.results == t.results
    ensures r.info.Keys == t.info.Keys + {CONFIG_TYPE, REF_ENERGY}
    ensures r.info[CONFIG_TYPE] == Text(ISOLATED_ATOM) && r.info[REF_ENERGY] == Quantity(energy)
    ensures forall k :: k in t.info && k != CONFIG_TYPE && k != REF_ENERGY ==> r.info[k] == t.info[k]
  {
    t.(info := t.info[CONFIG_TYPE := Text(ISOLATED_ATOM)][REF_ENERGY := Quantity(energy)])
  }

  /** `r` is the reference record built from the loaded record `t`. */
  predicate IsE0Of(r: Atoms, t: Atoms) {
    PotentialEnergy(t).Some? && r == Tag(t, PotentialEnergy(t).value)
  }

  datatype Failure = NoData(message: string) | NoEnergy(atom: string)

  /** `order[j]` is the first species whose loaded result has no energy. */
  predicate FirstMissing(order: seq<string>, load: string -> Atoms, j: int) {
    && 0 <= j < |order|
    && PotentialEnergy(load(CalcDir(order[j]))).None?
    && forall i :: 0 <= i < j ==> PotentialEnergy(load(CalcDir(order[i]))).Some?
  }

  /** The species loop: issue the calculation unless its directory exists,
      load the result, and tag it. `get_potential_energy` raising on a
      result without an energy ends the loop. */
  method IsolatedAtoms(order: seq<string>, existing: set<string>, load: string -> Atoms)
    returns (runs: seq<Run>, e0s: Result<seq<Atoms>, Failure>)
    ensures e0s.Success? <==> forall i :: 0 <= i < |order| ==> PotentialEnergy(load(CalcDir(order[i]))).Some?
    ensures e0s.Success? ==> runs == E0Runs(order, existing)
    ensures e0s.Success? ==> |e0s.value| == |order|
    ensures e0s.Success? ==> forall i :: 0 <= i < |order| ==> IsE0Of(e0s.value[i], load(CalcDir(order[i])))
    ensures e0s.Failure? ==> exists j :: (FirstMissing(order, load, j) && e0s.error == NoEnergy(order[j])
      && runs == E0Runs(order[..j + 1], existing))
  {
    runs := [];
    var recs: seq<Atoms> := [];
    for i := 0 to |order|
      invariant runs == E0Runs(order[..i], existing)
      invariant |recs| == i
      invariant forall j :: 0 <= j < i ==> IsE0Of(recs[j], load(CalcDir(order[j])))
      invariant forall j :: 0 <= j < i ==> PotentialEnergy(load(CalcDir(order[j]))).Some?
    {
      var atom := order[i];
      assert order[..i + 1][..i] == order[..i];
      if CalcDir(atom) !in existing {
        runs := runs + [AtomRun(atom)];
      }
      var result := load(CalcDir(atom));
      var energy := PotentialEnergy(result);
      if energy.None? {
        assert FirstMissing(order, load, i);
        e0s := Failure(NoEnergy(atom));
        return;
      }
      recs := recs + [Tag(result, energy.value)];
    }
    assert order[..|order|] == order;
    e0s := Success(recs);
  }

  // ---------------------------------------------------------------------
  // The whole script
  // ---------------------------------------------------------------------

  /** What a run of the script leaves behind: the files written, the
      calculations issued, and the error it stopped with, if any. */
  datatype Script = Script(writes: seq<Write>, runs: seq<Run>, failure: Option<Failure>)

  /** `order` enumerates the species of the example, whenever there is one. */
  predicate SpeciesOrder(order: seq<string>, es1: seq<Atoms>, es2: seq<Atoms>) {
    |es1| + |es2| > 0 ==> Enumerates(order, (es1 + es2)[0].symbols)
  }

  method Prepare(v: Variant, listing: seq<Entry>, order: seq<string>, existing: set<string>, load: string -> Atoms)
    returns (s: Script)
    requires SpeciesOrder(order, Buckets(v, listing, load).0, Buckets(v, listing, load).1)
    ensures var (es1, es2) := Buckets(v, listing, load);
      && |s.writes| >= 2
      && s.writes[0] == Write(Child(OutDir(v), Es1File(v)), es1)
      && s.writes[1] == Write(Child(OutDir(v), Es2File(v)), es2)
      && (s.failure.Some? && s.failure.value.NoData? <==> |es1| == 0 && |es2| == 0)
      && (|es1| == 0 && |es2| == 0 ==> |s.writes| == 2 && s.runs == [])
    ensures var (es1, es2) := Buckets(v, listing, load);
      s.failure.None? ==>
        && |s.writes| == 3
        && s.writes[2].name == Child(OutDir(v), E0S_FILE)
        && |s.writes[2].records| == |set a | a in (es1 + es2)[0].symbols|
        && s.runs == E0Runs(order, existing)
        && |s.writes[2].records| == |order|
        && (forall i :: 0 <= i < |order| ==> IsE0Of(s.writes[2].records[i], load(CalcDir(order[i]))))
        && forall i :: 0 <= i < |s.writes[2].records| ==>
          CONFIG_TYPE in s.writes[2].records[i].info && s.writes[2].records[i].info[CONFIG_TYPE] == Text(ISOLATED_ATOM)
    ensures s.failure.Some? ==> |s.writes| == 2
    ensures var (es1, es2) := Buckets(v, listing, load);
      s.failure.Some? && s.failure.value.NoEnergy? ==>
        && |es1| + |es2| > 0
        && exists j :: (FirstMissing(order, load, j) && s.failure.value == NoEnergy(order[j])
          && s.runs == E0Runs(order[..j + 1], existing))
  {
    var es1, es2;
    match v {
      case Isolated =>
        es1, es2 := BucketRuns(InputDir(v), listing, load);
      case MolecularDynamics =>
        es1, es2 := BucketSnapshots(InputDir(v), listing, load);
    }
    var writes := [Write(Child(OutDir(v), Es1File(v)), es1), Write(Child(OutDir(v), Es2File(v)), es2)];
    var example := PickExample(es1, es2, InputDir(v));
    if example.Failure? {
      return Script(writes, [], Some(NoData(example.error)));
    }
    var runs, e0s := IsolatedAtoms(order, existing, load);
    if e0s.Failure? {
      return Script(writes, runs, Some(e0s.error));
    }
    EnumerationSize(order, example.value.symbols);
    return Script(writes + [Write(Child(OutDir(v), E0S_FILE), e0s.value)], runs, None);
  }
}
