/** The object `PDB_Corr` (pdbCorrection.py:48-208): the renumbering state `self.current`, updated
    record by record, and the direction of the nomenclature tables fixed at construction. */
module PdbCorrector {
  import opened Wrappers
  import opened PyStr
  import opened Hybrid36
  import opened PdbLines
  import opened PdbCorrection
  import PdbRun
  import opened Reshuffle

  class PdbCorr {
    /** `self.current`. */
    var current: Current
    /** `self.reverse`: rename back to the old nomenclature. */
    const reverse: bool

    constructor(reverse: bool)
      ensures current == Initial && this.reverse == reverse
    {
      current := Initial;
      this.reverse := reverse;
    }

    /** `reshuffle_pdb` (pdbCorrection.py:64-75): the ATOM records are split from the rest, keyed and
        sorted; a residue field that is not an integer raises `ValueError`. */
    method ReshufflePdb(pdbFile: seq<string>) returns (r: Result<seq<string>>)
      ensures r == Reshuffled(pdbFile)
    {
      var unshuffled, rem := SplitAtoms(pdbFile);
      // `list.sort` computes every key before it moves anything
      var keyed := KeyAll(unshuffled);
      if keyed.None? {
        return Err(ValueError);
      }
      r := Ok(rem + Lines(SortByKey(keyed.value)));
    }

    /** The loop of `reshuffle_pdb` that sets the ATOM records apart (pdbCorrection.py:67-73). */
    method SplitAtoms(pdbFile: seq<string>) returns (unshuffled: seq<string>, rem: seq<string>)
      ensures unshuffled == Atoms(pdbFile) && rem == Others(pdbFile)
    {
      unshuffled, rem := [], [];
      for i := 0 to |pdbFile|
        invariant unshuffled == Atoms(pdbFile[..i]) && rem == Others(pdbFile[..i])
      {
        assert pdbFile[..i + 1][..i] == pdbFile[..i];
        if Slice(pdbFile[i], 0, 6) == "ATOM  " {
          unshuffled := unshuffled + [pdbFile[i]];
        } else {
          rem := rem + [pdbFile[i]];
        }
      }
      assert pdbFile[..|pdbFile|] == pdbFile;
    }

    /** `correct_atom_number` (pdbCorrection.py:114-119). */
    method CorrectAtomNumber(line: string) returns (r: Result<string>)
      modifies this
      ensures Step(r, current) == AtomNumberStep(old(current), line)
    {
      var field := NumberToHybrid36(current.atomNumber, 5);
      if field.Err? {
        return Err(field.error);
      }
      r := Ok(SerialLine(line, field.value));
      current := current.(atomNumber := current.atomNumber + 1);
    }

    /** `correct_molecule_chain_and_number` (pdbCorrection.py:142-201): the fields of `self.current`
        change in the order the source changes them, so a `ValueError` from the hybrid-36 encoding
        leaves the segment of a first record and a counted repeat behind. */
    method CorrectMoleculeChainAndNumber(line: string, resetNumbers: bool) returns (r: Result<(string, bool)>)
      modifies this
      ensures Step(r, current) == MoleculeChainStep(old(current), line, resetNumbers)
    {
      var chain := Segment(line);
      var parsed := MoleculeNumber(line);
      if parsed.None? {
        return Err(ValueError);
      }
      var number := parsed.value;
      var newChainId, newNumber, isTer := ChooseChainAndNumber(chain, number);
      var chainStr := ChainStr(newChainId, current.chainIdRepeats);
      var field := NumberToHybrid36(if resetNumbers then newNumber else number, 4);
      if field.Err? {
        return Err(field.error);
      }
      var newline := ChainLine(line, newChainId, field.value, chainStr);
      current := current.(chainId := newChainId, chain := Some(chain), oldMoleculeNumber := number,
                          lastMoleculeNumber := newNumber);
      r := Ok((newline, isTer));
      MoleculeChainStepOk(old(current), line, resetNumbers, number, field.value);
    }

    /** The branch of `correct_molecule_chain_and_number` that picks the chain letter and residue
        number (pdbCorrection.py:159-182): it records the segment of the first record and counts a
        repeat when leaving `Z`, and decides as `Renumber` does. */
    method ChooseChainAndNumber(chain: string, number: int) returns (newChainId: char, newNumber: int, isTer: bool)
      modifies this
      ensures Renumber(old(current), chain, number) == Renumbering(newChainId, newNumber, isTer, current.chainIdRepeats)
      ensures current == old(current).(chain := if old(current).chain.None? then Some(chain) else old(current).chain,
                                       chainIdRepeats := current.chainIdRepeats)
    {
      isTer := false;
      if current.chain.None? {
        current := current.(chain := Some(chain));
        newChainId := current.chainId;
        newNumber := 1;
      } else if chain == current.chain.value {
        newChainId := current.chainId;
        if number == current.oldMoleculeNumber {
          newNumber := current.lastMoleculeNumber;
        } else if number == current.oldMoleculeNumber + 1 {
          newNumber := current.lastMoleculeNumber + 1;
        } else {
          newNumber := current.lastMoleculeNumber + 10;
          isTer := true;
        }
      } else {
        newChainId := IncreaseChainId(current.chainId);
        isTer := true;
        newNumber := 1;
        if current.chainId == 'Z' {
          current := current.(chainIdRepeats := current.chainIdRepeats + 1);
        }
      }
    }

    /** The body of the loop of `correct_pdb` for an ATOM record it rewrites (pdbCorrection.py:93-97),
        with `reset_numbers` set as `correct_pdb` sets it. */
    method CorrectAtom(line: string, flags: PdbRun.Flags) returns (r: Result<seq<string>>)
      modifies this
      ensures Step(r, current) == PdbRun.CorrectAtom(old(current), reverse, line, flags)
    {
      var l := line;
      if flags.nomenclature {
        l := CorrectNomenclature(reverse, l);
      }
      var isTer: Option<bool> := None;
      if flags.moleculeChain {
        var m := CorrectMoleculeChainAndNumber(l, true);
        if m.Err? {
          return Err(m.error);
        }
        l, isTer := m.value.0, Some(m.value.1);
      }
      r := FinishAtom(l, isTer, flags);
    }

    /** The rest of that body (pdbCorrection.py:98-108): serial number, occupancy, element symbol,
        hydrogen removal, then the TER record if renumbering asked for one. */
    method FinishAtom(line: string, isTer: Option<bool>, flags: PdbRun.Flags) returns (r: Result<seq<string>>)
      modifies this
      ensures Step(r, current) == PdbRun.FinishAtom(old(current), line, isTer, flags)
    {
      var l := line;
      if flags.atomNumber {
        var a := CorrectAtomNumber(l);
        if a.Err? {
          return Err(a.error);
        }
        l := a.value;
      }
      if flags.occupancy {
        l := CorrectOccupancy(l);
      }
      if flags.atomtype {
        var t := CorrectAtomtype(l);
        if t.Err? {
          return Err(t.error);
        }
        l := t.value;
      }
      if flags.removeH {
        l := RemoveH(l);
      }
      if isTer.None? {
        // `is_ter` is never bound when `molecule_chain` is off
        return Err(UnboundLocalError);
      }
      r := Ok((if isTer.value then [PdbRun.Ter] else []) + [l]);
    }

    /** What one input record adds to the body of `correct_pdb` (pdbCorrection.py:87-108). */
    method CorrectLine(line: string, flags: PdbRun.Flags) returns (r: Result<seq<string>>)
      modifies this
      ensures Step(r, current) == PdbRun.LineStep(old(current), reverse, line, flags)
    {
      var lineType := Slice(line, 0, 6);
      if lineType == "TITLE " || lineType == "CRYST1" {
        r := Ok([line]);
      } else if lineType == "ATOM  " && Slice(line, 13, 15) != "  " {
        r := CorrectAtom(line, flags);
      } else {
        r := Ok([]);
      }
    }

    /** `correct_pdb` (pdbCorrection.py:77-112): the header, the kept and rewritten records with
        their TER records, and the trailer, joined; the first exception ends the run with the state
        as far as it got. */
    method CorrectPdb(pdbFile: seq<string>, flags: PdbRun.Flags) returns (r: Result<string>)
      modifies this
      ensures Step(r, current) == PdbRun.CorrectPdb(old(current), reverse, pdbFile, flags)
    {
      var head := if flags.addHeader then [PdbRun.Header] else [];
      var body := CorrectLines(pdbFile, flags);
      if body.Err? {
        return Err(body.error);
      }
      r := Ok(PdbRun.Concat(head + body.value + [PdbRun.Trailer]));
    }

    /** The loop of `correct_pdb` (pdbCorrection.py:86-108): the pieces of every line in turn, or the
        first exception. */
    method CorrectLines(pdbFile: seq<string>, flags: PdbRun.Flags) returns (r: Result<seq<string>>)
      modifies this
      ensures Step(r, current) == PdbRun.Run(old(current), reverse, pdbFile, flags)
    {
      var body: seq<string> := [];
      for i := 0 to |pdbFile|
        invariant PdbRun.Run(old(current), reverse, pdbFile[..i], flags) == Step(Ok(body), current)
      {
        var pieces := CorrectLine(pdbFile[i], flags);
        PdbRun.RunStep(old(current), reverse, pdbFile, i, flags);
        if pieces.Err? {
          PdbRun.RunErrKept(old(current), reverse, pdbFile, i + 1, flags);
          return Err(pieces.error);
        }
        body := body + pieces.value;
      }
      PdbRun.RunAll(old(current), reverse, pdbFile, flags);
      r := Ok(body);
    }
  }
}
