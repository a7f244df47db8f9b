/** `ptDataCleaner` from the pretrained-dataset cleaner: it renames the energy
    and force columns of an extended-XYZ text, keeps the molecules made only
    of whitelisted elements, and draws a fixed-size random sample of them. */
module Cleaner {
  import opened Wrappers
  import opened Strings
  import opened Seqs
  import opened Records

  const ENERGY_WORD: string := "energy"
  const ENERGY_COLUMN: string := " energy"
  const REF_ENERGY_COLUMN: string := " REF_energy"
  const FORCES_COLUMN: string := ":forces"
  const REF_FORCES_COLUMN: string := ":REF_forces"

  /** The settings of the script's own run. */
  const ELEMENTS: seq<string> := ["C", "O", "N", "H"]
  const N_SAMPLES: nat := 500
  const OUTPUT_FILE: string := "mace-suite/data/pretrained_datasets/cleaned/cleaned_pt_train.xyz"

  // ---------------------------------------------------------------------
  // parse_ref: the line rewriter
  // ---------------------------------------------------------------------

  /** First step of the loop body: only lines mentioning `energy` are
      touched, and there every ` energy` becomes ` REF_energy`. */
  function RenameEnergy(line: string): string {
    if Contains(line, ENERGY_WORD) then Replace(line, ENERGY_COLUMN, REF_ENERGY_COLUMN) else line
  }

  /** Second step: every `:forces` becomes `:REF_forces`. */
  function RenameForces(line: string): string {
    if Contains(line, FORCES_COLUMN) then Replace(line, FORCES_COLUMN, REF_FORCES_COLUMN) else line
  }

  /** One line through both steps; no old column name survives. */
  function RewriteLine(line: string): (r: string)
    ensures !Contains(r, ENERGY_COLUMN) && !Contains(r, FORCES_COLUMN)
  {
    EnergyRemoved(line);
    ForcesRemoved(RenameEnergy(line));
    RenameForces(RenameEnergy(line))
  }

  /** The loop of `parse_ref`: one output line per input line, in order. */
  method ParseRef(lines: seq<string>) returns (out: seq<string>)
    ensures |out| == |lines|
    ensures forall i :: 0 <= i < |lines| ==> out[i] == RewriteLine(lines[i])
  {
    out := [];
    for i := 0 to |lines|
      invariant |out| == i
      invariant forall j :: 0 <= j < i ==> out[j] == RewriteLine(lines[j])
    {
      out := out + [RewriteLine(lines[i])];
    }
  }

  /** The energy step renames the first ` energy` of a line to
      ` REF_energy`, keeps the text before it, and carries on with the rest;
      with `Strings.FirstOccurrence` this covers every line holding the
      column. */
  lemma EnergyRenamed(a: string, b: string)
    requires !Contains(a + ENERGY_COLUMN[..|ENERGY_COLUMN| - 1], ENERGY_COLUMN)
    ensures RenameEnergy(a + ENERGY_COLUMN + b) == a + REF_ENERGY_COLUMN + RenameEnergy(b)
  {
    var line := a + ENERGY_COLUMN + b;
    assert line[|a| + 1..|a| + 1 + |ENERGY_WORD|] == ENERGY_WORD;
    ContainsAt(line, ENERGY_WORD, |a| + 1);
    ReplaceAt(a, ENERGY_COLUMN, REF_ENERGY_COLUMN, b);
    if !Contains(b, ENERGY_WORD) {
      assert ENERGY_COLUMN == " " + ENERGY_WORD;
      if Contains(b, ENERGY_COLUMN) {
        ContainsSuffixPart(b, " ", ENERGY_WORD);
      }
    }
  }

  /** The force step renames the first `:forces` to `:REF_forces` in the
      same way. */
  lemma ForcesRenamed(a: string, b: string)
    requires !Contains(a + FORCES_COLUMN[..|FORCES_COLUMN| - 1], FORCES_COLUMN)
    ensures RenameForces(a + FORCES_COLUMN + b) == a + REF_FORCES_COLUMN + RenameForces(b)
  {
    var line := a + FORCES_COLUMN + b;
    assert line[|a|..|a| + |FORCES_COLUMN|] == FORCES_COLUMN;
    ContainsAt(line, FORCES_COLUMN, |a|);
    ReplaceAt(a, FORCES_COLUMN, REF_FORCES_COLUMN, b);
  }

  /** A line that mentions `energy` only without a leading blank is left
      alone by the energy step. */
  lemma EnergyWithoutColumn(line: string)
    requires !Contains(line, ENERGY_COLUMN)
    ensures RenameEnergy(line) == line
  {
  }

  /** A line with neither `energy` nor `:forces` comes through unchanged. */
  lemma RewriteUntouched(line: string)
    requires !Contains(line, ENERGY_WORD) && !Contains(line, FORCES_COLUMN)
    ensures RewriteLine(line) == line
  {
  }

  /** The energy step leaves no ` energy` behind. */
  lemma EnergyRemoved(line: string)
    ensures !Contains(RenameEnergy(line), ENERGY_COLUMN)
  {
    if Contains(line, ENERGY_WORD) {
      assert REF_ENERGY_COLUMN[1..] == "REF_energy";
      assert !StartsWith(REF_ENERGY_COLUMN, ENERGY_COLUMN) by {
        assert REF_ENERGY_COLUMN[1] != ENERGY_COLUMN[1];
      }
      ReplaceRemoves(line, ENERGY_COLUMN, REF_ENERGY_COLUMN);
    } else {
      assert ENERGY_COLUMN == " " + ENERGY_WORD;
      if Contains(line, ENERGY_COLUMN) {
        ContainsSuffixPart(line, " ", ENERGY_WORD);
      }
    }
  }

  /** The force step leaves no `:forces` behind and keeps the absence of
      ` energy`. */
  lemma ForcesRemoved(line: string)
    requires !Contains(line, ENERGY_COLUMN)
    ensures !Contains(RenameForces(line), FORCES_COLUMN)
    ensures !Contains(RenameForces(line), ENERGY_COLUMN)
  {
    if Contains(line, FORCES_COLUMN) {
      assert REF_FORCES_COLUMN[1..] == "REF_forces";
      assert !StartsWith(REF_FORCES_COLUMN, FORCES_COLUMN) by {
        assert REF_FORCES_COLUMN[1] != FORCES_COLUMN[1];
      }
      ReplaceRemoves(line, FORCES_COLUMN, REF_FORCES_COLUMN);
      ReplaceKeepsAbsent(line, FORCES_COLUMN, REF_FORCES_COLUMN, ENERGY_COLUMN);
    }
  }

  /** Rewriting a rewritten line changes nothing, so running the cleaner on
      its own output (it writes the result back over its input) is
      harmless. */
  lemma RewriteIdempotent(line: string)
    ensures RewriteLine(RewriteLine(line)) == RewriteLine(line)
  {
    var f := RewriteLine(line);
    EnergyWithoutColumn(f);
    if Contains(f, FORCES_COLUMN) {
      assert false;
    }
  }

  /** The same for a whole text. */
  lemma ParseRefIdempotent(lines: seq<string>, once: seq<string>, twice: seq<string>)
    requires |once| == |lines| && forall i :: 0 <= i < |lines| ==> once[i] == RewriteLine(lines[i])
    requires |twice| == |once| && forall i :: 0 <= i < |once| ==> twice[i] == RewriteLine(once[i])
    ensures twice == once
  {
    forall i | 0 <= i < |lines|
      ensures twice[i] == once[i]
    {
      RewriteIdempotent(lines[i]);
    }
  }

  // ---------------------------------------------------------------------
  // filter_atoms: the element whitelist
  // ---------------------------------------------------------------------

  predicate IsUpper(ch: char) {
    'A' <= ch <= 'Z'
  }

  predicate IsLower(ch: char) {
    'a' <= ch <= 'z'
  }

  /** A match of `[A-Z][a-z]?`. */
  predicate IsElementToken(t: string) {
    (|t| == 1 || |t| == 2) && IsUpper(t[0]) && (|t| == 2 ==> IsLower(t[1]))
  }

  /** `re.findall(r'[A-Z][a-z]?', s)`: scanning left to right, an upper-case
      letter starts a match that takes the next character when it is lower
      case; every other character is passed over. */
  function ElementTokens(s: string): (r: seq<string>)
    ensures |r| <= |s|
    ensures forall i :: 0 <= i < |r| ==> IsElementToken(r[i])
    decreases |s|
  {
    if |s| == 0 then []
    else if !IsUpper(s[0]) then ElementTokens(s[1..])
    else if |s| >= 2 && IsLower(s[1]) then [s[..2]] + ElementTokens(s[2..])
    else [s[..1]] + ElementTokens(s[1..])
  }

  /** `list(dict.fromkeys(re.findall(...)))` */
  function UniqueElements(s: string): seq<string> {
    Dedup(ElementTokens(s))
  }

  /** Every match has the shape of the pattern. */
  /** One formula term: an element symbol followed by a count, which may be
      empty. */
  predicate IsTerm(term: (string, string)) {
    IsElementToken(term.0) && forall i :: 0 <= i < |term.1| ==> IsDigit(term.1[i])
  }

  /** A chemical formula written as symbol/count terms, as in `C2H4O`. */
  function FormulaText(terms: seq<(string, string)>): string {
    if |terms| == 0 then "" else terms[0].0 + terms[0].1 + FormulaText(terms[1..])
  }

  function Symbols(terms: seq<(string, string)>): (r: seq<string>)
    ensures |r| == |terms|
    ensures forall i :: 0 <= i < |terms| ==> r[i] == terms[i].0
  {
    seq(|terms|, i requires 0 <= i < |terms| => terms[i].0)
  }

  lemma FormulaStartsUpper(terms: seq<(string, string)>)
    requires forall i :: 0 <= i < |terms| ==> IsTerm(terms[i])
    ensures |terms| > 0 ==> |FormulaText(terms)| > 0 && IsUpper(FormulaText(terms)[0])
  {
  }

  /** Digits are passed over. */
  lemma {:induction false} DigitsSkipped(d: string, rest: string)
    requires forall i :: 0 <= i < |d| ==> IsDigit(d[i])
    ensures ElementTokens(d + rest) == ElementTokens(rest)
    decreases |d|
  {
    if |d| > 0 {
      var s := d + rest;
      assert s[0] == d[0] && !IsUpper(s[0]);
      assert s[1..] == d[1..] + rest;
      DigitsSkipped(d[1..], rest);
    } else {
      assert d + rest == rest;
    }
  }

  /** The matches of a formula are its element symbols, in order: the
      extraction inverts the writing of a formula. */
  lemma {:induction false} FormulaTokens(terms: seq<(string, string)>)
    requires forall i :: 0 <= i < |terms| ==> IsTerm(terms[i])
    ensures ElementTokens(FormulaText(terms)) == Symbols(terms)
    decreases |terms|
  {
    if |terms| > 0 {
      var sym, count := terms[0].0, terms[0].1;
      var rest := FormulaText(terms[1..]);
      var s := sym + count + rest;
      FormulaTokens(terms[1..]);
      FormulaStartsUpper(terms[1..]);
      DigitsSkipped(count, rest);
      if |sym| == 2 {
        assert s[..2] == sym && s[2..] == count + rest;
      } else {
        assert s[..1] == sym && s[1..] == count + rest;
        assert !(|s| >= 2 && IsLower(s[1])) by {
          if |count| > 0 {
            assert s[1] == count[0];
          } else if |rest| > 0 {
            assert s[1] == rest[0];
          }
        }
      }
      assert Symbols(terms) == [sym] + Symbols(terms[1..]);
    }
  }

  /** `all(ele in elements for ele in unique_elements)` */
  predicate Allowed(formula: string, elements: seq<string>) {
    forall i :: 0 <= i < |UniqueElements(formula)| ==> UniqueElements(formula)[i] in elements
  }

  /** Checking the distinct elements is the same as checking every match. */
  lemma AllowedTokens(formula: string, elements: seq<string>)
    ensures Allowed(formula, elements) <==> forall t :: t in ElementTokens(formula) ==> t in elements
  {
    var ts := ElementTokens(formula);
    DedupSpec(ts);
    if Allowed(formula, elements) {
      forall t | t in ts
        ensures t in elements
      {
        var i :| 0 <= i < |ts| && ts[i] == t;
        assert ts[i] in Dedup(ts);
        var j :| 0 <= j < |Dedup(ts)| && Dedup(ts)[j] == t;
        assert UniqueElements(formula)[j] == t;
      }
    }
  }

  /** A formula passes the whitelist exactly when each of its symbols is
      listed; a formula without symbols always passes. */
  lemma AllowedFormula(terms: seq<(string, string)>, elements: seq<string>)
    requires forall i :: 0 <= i < |terms| ==> IsTerm(terms[i])
    ensures Allowed(FormulaText(terms), elements) <==> forall i :: 0 <= i < |terms| ==> terms[i].0 in elements
  {
    FormulaTokens(terms);
    AllowedTokens(FormulaText(terms), elements);
    assert forall t :: t in Symbols(terms) <==> exists i :: 0 <= i < |terms| && terms[i].0 == t;
  }

  /** `filter_atoms`, where `formula(m)` is `str(m.symbols)`. */
  function FilterAtoms(mols: seq<Atoms>, formula: Atoms -> string, elements: seq<string>): (r: seq<Atoms>)
    ensures |r| <= |mols|
    ensures forall i :: 0 <= i < |r| ==> Allowed(formula(r[i]), elements)
    decreases |mols|
  {
    if |mols| == 0 then []
    else
      var kept := FilterAtoms(mols[..|mols| - 1], formula, elements);
      if Allowed(formula(mols[|mols| - 1]), elements) then kept + [mols[|mols| - 1]] else kept
  }

  /** The kept molecules are the input with the rejected ones left out, in
      their original order, and a molecule is kept exactly when its formula
      passes the whitelist. */
  lemma {:induction false} FilterAtomsSpec(mols: seq<Atoms>, formula: Atoms -> string, elements: seq<string>)
    ensures IsSubsequence(FilterAtoms(mols, formula, elements), mols)
    ensures forall m :: m in FilterAtoms(mols, formula, elements) <==> m in mols && Allowed(formula(m), elements)
    ensures forall m :: (multiset(FilterAtoms(mols, formula, elements))[m]
      == if Allowed(formula(m), elements) then multiset(mols)[m] else 0)
    decreases |mols|
  {
    if |mols| > 0 {
      var init := mols[..|mols| - 1];
      var m := mols[|mols| - 1];
      var kept := FilterAtoms(init, formula, elements);
      FilterAtomsSpec(init, formula, elements);
      assert mols == init + [m];
      assert multiset(mols) == multiset(init) + multiset{m};
      if Allowed(formula(m), elements) {
        assert (kept + [m])[..|kept|] == kept;
        assert multiset(kept + [m]) == multiset(kept) + multiset{m};
      } else {
        SubsequenceExtend(kept, init, m);
      }
    }
  }

  /** A subsequence of `b` is one of `b + [x]`. */
  lemma {:induction false} SubsequenceExtend<T>(a: seq<T>, b: seq<T>, x: T)
    requires IsSubsequence(a, b)
    ensures IsSubsequence(a, b + [x])
    decreases |b|, 1
  {
    assert (b + [x])[..|b|] == b;
    if |a| > 0 && a[|a| - 1] == x {
      SubsequenceDrop(a, b);
    }
  }

  /** A subsequence of `b` with its last element removed is still one of `b`. */
  lemma {:induction false} SubsequenceDrop<T>(a: seq<T>, b: seq<T>)
    requires |a| > 0 && IsSubsequence(a, b)
    ensures IsSubsequence(a[..|a| - 1], b)
    decreases |b|, 0
  {
    var a', b' := a[..|a| - 1], b[..|b| - 1];
    if a[|a| - 1] != b[|b| - 1] {
      SubsequenceDrop(a, b');
    }
    SubsequenceExtend(a', b', b[|b| - 1]);
    assert b' + [b[|b| - 1]] == b;
  }

  // ---------------------------------------------------------------------
  // random_sample
  // ---------------------------------------------------------------------

  /** Positions the generator may pick: `n` distinct indices of the
      population. */
  predicate ValidPicks(picks: seq<nat>, n: nat, size: nat) {
    |picks| == n && Distinct(picks) && forall i :: 0 <= i < |picks| ==> picks[i] < size
  }

  /** `random.sample(good_mols, n_samples)`: `ValueError` unless
      `0 <= n <= len(good_mols)`; otherwise the molecules at the positions
      the generator drew. */
  function RandomSample(good: seq<Atoms>, n: int, picks: seq<nat>): (r: Result<seq<Atoms>, string>)
    requires 0 <= n <= |good| ==> ValidPicks(picks, n, |good|)
    ensures r.Failure? <==> n < 0 || n > |good|
    ensures r.Success? ==> |r.value| == n
    ensures r.Success? ==> forall i :: 0 <= i < n ==> r.value[i] == good[picks[i]]
  {
    if n < 0 || n > |good| then Failure("Sample larger than population or is negative")
    else Success(Select(good, picks))
  }

  /** The sample is a sub-multiset of the population: no molecule is drawn
      more often than it occurs. */
  lemma RandomSampleSubset(good: seq<Atoms>, n: int, picks: seq<nat>)
    requires 0 <= n <= |good| ==> ValidPicks(picks, n, |good|)
    ensures RandomSample(good, n, picks).Success? ==> multiset(RandomSample(good, n, picks).value) <= multiset(good)
  {
    if 0 <= n <= |good| {
      SelectSubMultiset(good, picks);
    }
  }

  /** Every admissible size can be drawn: the first `n` positions are one
      valid draw. */
  lemma SampleExists(size: nat, n: nat)
    requires n <= size
    ensures ValidPicks(seq(n, i => i), n, size)
  {
  }

  /** `random_sample` as a whole: the drawn molecules written to the output
      path. */
  function SampleWrite(out: string, good: seq<Atoms>, n: int, picks: seq<nat>): (r: Result<Write, string>)
    requires 0 <= n <= |good| ==> ValidPicks(picks, n, |good|)
    ensures r.Success? <==> 0 <= n <= |good|
    ensures r.Success? ==> r.value.name == out && |r.value.records| == n
  {
    var sel :- RandomSample(good, n, picks);
    Success(Write(out, sel))
  }

  // ---------------------------------------------------------------------
  // The script's own run
  // ---------------------------------------------------------------------

  /** With the script's whitelist C, O, N, H, oxirane `C2H4O` is kept, while
      chloromethane `CH3Cl` is dropped: `Cl` is matched as one symbol, not
      as `C` followed by a lower-case letter. */
  lemma ScriptWhitelist()
    ensures Allowed("C2H4O", ELEMENTS)
    ensures !Allowed("CH3Cl", ELEMENTS)
  {
    OxiraneAllowed();
    ChloromethaneRejected();
  }

  lemma OxiraneAllowed()
    ensures Allowed("C2H4O", ELEMENTS)
  {
    var oxirane := [("C", "2"), ("H", "4"), ("O", "")];
    assert IsTerm(oxirane[0]) && IsTerm(oxirane[1]) && IsTerm(oxirane[2]);
    assert FormulaText(oxirane) == "C2H4O";
    AllowedFormula(oxirane, ELEMENTS);
  }

  lemma ChloromethaneRejected()
    ensures !Allowed("CH3Cl", ELEMENTS)
  {
    var chloromethane := [("C", ""), ("H", "3"), ("Cl", "")];
    assert IsTerm(chloromethane[0]) && IsTerm(chloromethane[1]) && IsTerm(chloromethane[2]);
    assert FormulaText(chloromethane) == "CH3Cl";
    AllowedFormula(chloromethane, ELEMENTS);
    assert chloromethane[2].0 !in ELEMENTS;
  }


  /** The script's draw of 500 molecules succeeds exactly when at least 500
      passed the whitelist, and then writes exactly 500 to the output
      file. */
  lemma ScriptSample(good: seq<Atoms>, picks: seq<nat>)
    requires N_SAMPLES <= |good| ==> ValidPicks(picks, N_SAMPLES, |good|)
    ensures SampleWrite(OUTPUT_FILE, good, N_SAMPLES, picks).Success? <==> |good| >= 500
    ensures SampleWrite(OUTPUT_FILE, good, N_SAMPLES, picks).Success? ==>
      SampleWrite(OUTPUT_FILE, good, N_SAMPLES, picks).value.name == OUTPUT_FILE
      && |SampleWrite(OUTPUT_FILE, good, N_SAMPLES, picks).value.records| == 500
  {
  }
}
