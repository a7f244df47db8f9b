/** Configuration records as the scripts handle them: an ASE `Atoms` object with
    its chemical symbols, its `info` dictionary, its per-atom `arrays`, and the
    results of whatever calculator is attached. Numbers and arrays produced by
    the quantum-chemistry program are kept opaque. */
module Records {
  import opened Wrappers

  /** A handle on a number or array computed elsewhere (an energy, forces,
      positions). The model copies it around and never looks inside. */
  datatype Payload = Payload(handle: nat)

  /** A value stored in `Atoms.info`. */
  datatype Info = Text(text: string) | Quantity(value: Payload)

  datatype Atoms = Atoms(
    symbols: seq<string>,                // one chemical symbol per atom
    info: map<string, Info>,             // per-configuration key/value pairs
    arrays: map<string, Payload>,        // per-atom arrays
    results: Option<map<string, Payload>>) // `calc.results`; None without a calculator

  /** A file written with `ase.io.write`: its name and the records in order. */
  datatype Write = Write(name: string, records: seq<Atoms>)

  const ENERGY: string := "energy"
  const FORCES: string := "forces"
  const REF_ENERGY: string := "REF_energy"
  const REF_FORCES: string := "REF_forces"

  /** Reading `t.calc.results["energy"]` and `["forces"]` succeeds. */
  predicate HasResults(t: Atoms) {
    t.results.Some? && ENERGY in t.results.value && FORCES in t.results.value
  }

  /** `t.copy()` with the calculator's energy and forces stored as the
      reference labels `REF_energy` (in `info`) and `REF_forces` (in
      `arrays`). ASE's `Atoms.copy` copies symbols, `info` and `arrays` but
      not the calculator, so the copy carries no results. */
  function Label(t: Atoms): (r: Atoms)
    requires HasResults(t)
    ensures r.symbols == t.symbols && r.results.None?
    ensures r.info.Keys == t.info.Keys + {REF_ENERGY}
    ensures r.info[REF_ENERGY] == Quantity(t.results.value[ENERGY])
    ensures forall k :: k in t.info && k != REF_ENERGY ==> r.info[k] == t.info[k]
    ensures r.arrays.Keys == t.arrays.Keys + {REF_FORCES}
    ensures r.arrays[REF_FORCES] == t.results.value[FORCES]
    ensures forall k :: k in t.arrays && k != REF_FORCES ==> r.arrays[k] == t.arrays[k]
  {
    t.(info := t.info[REF_ENERGY := Quantity(t.results.value[ENERGY])],
       arrays := t.arrays[REF_FORCES := t.results.value[FORCES]],
       results := None)
  }

  /** Labels every frame, or fails when some frame lacks a calculator result
      (Python raises `AttributeError` or `KeyError` there). */
  function LabelAll(frames: seq<Atoms>): (r: Option<seq<Atoms>>)
    ensures r.Some? <==> forall i :: 0 <= i < |frames| ==> HasResults(frames[i])
    ensures r.Some? ==> |r.value| == |frames|
    ensures r.Some? ==> forall i :: 0 <= i < |frames| ==> r.value[i] == Label(frames[i])
  {
    if |frames| == 0 then Some([])
    else if !HasResults(frames[0]) then None
    else
      match LabelAll(frames[1..])
      case None => None
      case Some(rest) => Some([Label(frames[0])] + rest)
  }

  /** `atoms.get_potential_energy()` on a single-point calculator: the stored
      energy, `None` where ASE raises. */
  function PotentialEnergy(t: Atoms): Option<Payload> {
    if t.results.Some? && ENERGY in t.results.value then Some(t.results.value[ENERGY]) else None
  }

  /** The energy the pipeline stamps as `REF_energy` is the one
      `get_potential_energy()` reports for the original record, and the
      labelled copy, having no calculator, reports none. */
  lemma PotentialEnergyLabel(t: Atoms)
    requires HasResults(t)
    ensures PotentialEnergy(t).Some? && Label(t).info[REF_ENERGY] == Quantity(PotentialEnergy(t).value)
    ensures PotentialEnergy(Label(t)).None?
  {
  }
}
