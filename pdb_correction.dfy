/** The renumbering state machine of `PDB_Corr` (pdbCorrection.py:48-201): atom serial numbers,
    residue numbers and chain identifiers assigned line by line, with the state `self.current`
    carried from one ATOM record to the next. */
module PdbCorrection {
  import opened Wrappers
  import opened Radix
  import opened PyStr
  import opened Hybrid36
  import opened PdbLines
  import opened Dicts

  /** `self.current`: the next atom serial number, the residue number last read and last written,
      the chain identifier last written with its repeat count, and the segment last read (`None`
      before the first ATOM record). */
  datatype Current = Current(
    atomNumber: int,
    oldMoleculeNumber: int,
    lastMoleculeNumber: int,
    chainId: char,
    chainIdRepeats: int,
    chain: Option<string>)

  /** The state `PDB_Corr.__init__` starts from (pdbCorrection.py:51-53). */
  const Initial: Current := Current(1, 1, 1, 'A', 1, None)

  /** `possible_chain_ids`. */
  const ChainIds: string := CharRange('A', 26)

  lemma ChainIdPosition(c: char)
    requires IsUpper(c)
    ensures Find(ChainIds, c) == c as int - 'A' as int
  {
    var k := c as int - 'A' as int;
    assert ChainIds[k] == c;
    IncreasingNoDup(ChainIds);
    IndexOfDistinct(ChainIds, k);
  }

  lemma NotChainId(c: char)
    requires !IsUpper(c)
    ensures Find(ChainIds, c) == -1
  {
  }

  /** `increase_chain_id` (pdbCorrection.py:143-151): the next letter, except that `Z` is followed by
      `B` so that `A` (the scaffold) is never reused; a character that is not a chain letter gives `A`. */
  function IncreaseChainId(c: char): (r: char)
    ensures IsUpper(c) && c != 'Z' ==> r as int == c as int + 1
    ensures c == 'Z' ==> r == 'B'
    ensures !IsUpper(c) ==> r == 'A'
  {
    if IsUpper(c) then ChainIdPosition(c); ChainIdNext(c)
    else NotChainId(c); ChainIdNext(c)
  }

  function ChainIdNext(c: char): char {
    var pos := Find(ChainIds, c);
    if pos + 1 < |ChainIds| then ChainIds[pos + 1] else ChainIds[1]
  }

  /** A chain letter is followed by a chain letter other than `A`. */
  lemma IncreaseChainIdNeverA(c: char)
    requires IsUpper(c)
    ensures IsUpper(IncreaseChainId(c)) && IncreaseChainId(c) != 'A'
  {
  }

  /** The decision `correct_molecule_chain_and_number` takes from the segment and residue number it
      reads: the chain letter and residue number to write, whether a TER record goes first, and the
      new repeat count. */
  datatype Renumbering = Renumbering(chainId: char, number: int, isTer: bool, repeats: int)

  function Renumber(cur: Current, chain: string, number: int): Renumbering {
    if cur.chain.None? then Renumbering(cur.chainId, 1, false, cur.chainIdRepeats)
    else if chain == cur.chain.value then
      if number == cur.oldMoleculeNumber then Renumbering(cur.chainId, cur.lastMoleculeNumber, false, cur.chainIdRepeats)
      else if number == cur.oldMoleculeNumber + 1 then
        Renumbering(cur.chainId, cur.lastMoleculeNumber + 1, false, cur.chainIdRepeats)
      else Renumbering(cur.chainId, cur.lastMoleculeNumber + 10, true, cur.chainIdRepeats)
    else
      Renumbering(IncreaseChainId(cur.chainId), 1, true,
                  if cur.chainId == 'Z' then cur.chainIdRepeats + 1 else cur.chainIdRepeats)
  }

  /** A break in the chain: a new segment, or a residue number that neither repeats nor follows the
      previous one. */
  predicate Breaks(cur: Current, chain: string, number: int) {
    cur.chain.Some? && (chain != cur.chain.value || (number != cur.oldMoleculeNumber && number != cur.oldMoleculeNumber + 1))
  }

  /** A TER record is emitted exactly at a break. */
  lemma RenumberTer(cur: Current, chain: string, number: int)
    ensures Renumber(cur, chain, number).isTer <==> Breaks(cur, chain, number)
  {
  }

  /** Within a segment the chain letter is kept and the written residue number advances by 0, 1 or
      10 according to whether the read number repeats, follows or jumps. */
  lemma RenumberWithinSegment(cur: Current, chain: string, number: int)
    requires cur.chain == Some(chain)
    ensures var d := Renumber(cur, chain, number);
      d.chainId == cur.chainId && d.repeats == cur.chainIdRepeats
      && d.number - cur.lastMoleculeNumber == (if number == cur.oldMoleculeNumber then 0
                                               else if number == cur.oldMoleculeNumber + 1 then 1 else 10)
  {
  }

  /** A new segment gets the next chain letter and residue number 1; leaving `Z` counts a repeat. */
  lemma RenumberNewSegment(cur: Current, chain: string, number: int)
    requires cur.chain.Some? && cur.chain.value != chain && IsUpper(cur.chainId)
    ensures var d := Renumber(cur, chain, number);
      d.number == 1 && IsUpper(d.chainId) && d.chainId != 'A'
      && (cur.chainId != 'Z' ==> d.chainId as int == cur.chainId as int + 1 && d.repeats == cur.chainIdRepeats)
      && (cur.chainId == 'Z' ==> d.chainId == 'B' && d.repeats == cur.chainIdRepeats + 1)
  {
    IncreaseChainIdNeverA(cur.chainId);
  }

  lemma RenumberRepeats(cur: Current, chain: string, number: int)
    ensures var d := Renumber(cur, chain, number);
      d.repeats == cur.chainIdRepeats || d.repeats == cur.chainIdRepeats + 1
  {
  }

  /** The state is well formed: positive counters and a chain letter. */
  predicate Valid(cur: Current) {
    cur.atomNumber >= 1 && cur.lastMoleculeNumber >= 1 && cur.chainIdRepeats >= 1 && IsUpper(cur.chainId)
  }

  /** Renumbering keeps the residue number positive and the chain letter a letter, and `A` is only
      ever written while the first chain lasts. */
  lemma RenumberValid(cur: Current, chain: string, number: int)
    requires Valid(cur)
    ensures var d := Renumber(cur, chain, number);
      d.number >= 1 && d.repeats >= cur.chainIdRepeats && IsUpper(d.chainId)
      && (d.chainId == 'A' ==> cur.chainId == 'A' && !(cur.chain.Some? && cur.chain.value != chain))
  {
    if cur.chain.Some? && cur.chain.value != chain {
      IncreaseChainIdNeverA(cur.chainId);
    }
  }

  /** The residue number `int(line[22:26].replace(' ', ''))`. */
  function MoleculeNumber(line: string): Option<int> {
    ParseInt(RemoveChar(Slice(line, 22, 26), ' '))
  }

  /** The segment column block `line[72:76]`. */
  function Segment(line: string): string {
    Slice(line, 72, 76)
  }

  /** The new segment field: the chain letter and the repeat count padded to three digits. */
  function ChainStr(id: char, repeats: int): string {
    [id] + RJust(IntToString(repeats), 3, '0')
  }

  lemma ChainStrWidth(id: char, repeats: int)
    requires 0 <= repeats < 1000
    ensures |ChainStr(id, repeats)| == 4
  {
    assert Pow(10, 3) == 1000;
    NatFits(repeats, 3);
    assert IntToString(repeats) == NatToString(repeats);
  }

  /** The rewritten ATOM record: chain letter in column 21, residue field 22..26, columns 67..72
      blanked and the segment field 72..76 replaced. */
  function ChainLine(line: string, id: char, field: string, chainStr: string): (r: string)
    ensures |line| >= 76 && |field| == 4 && |chainStr| == 4 ==>
      |r| == |line| && r[..21] == line[..21] && r[21] == id && r[22..26] == field && r[26..67] == line[26..67]
      && r[67..72] == "     " && r[72..76] == chainStr && r[76..] == line[76..]
    ensures |line| >= 6 ==> SamePrefix(line, r, 6)
  {
    var rest := [id] + field + Slice(line, 26, 67) + "     " + chainStr + From(line, 76);
    if |line| >= 6 then PrefixKept(line, 21, rest, 6); Slice(line, 0, 21) + rest
    else Slice(line, 0, 21) + rest
  }

  /** `correct_molecule_chain_and_number` (pdbCorrection.py:142-201).  On a `ValueError` from the
      residue field nothing has changed; on one from the hybrid-36 encoding the segment of the first
      record and the repeat count are already updated, as in the source. */
  function MoleculeChainStep(cur: Current, line: string, resetNumbers: bool): (r: Step<(string, bool)>)
    ensures r.out.Err? ==> r.out.error == ValueError
    ensures MoleculeNumber(line).None? ==> r.out.Err? && r.next == cur
    ensures r.out.Ok? && |line| >= 6 ==> SamePrefix(line, r.out.value.0, 6)
  {
    var chain := Segment(line);
    match MoleculeNumber(line)
    case None => Step(Err(ValueError), cur)
    case Some(number) =>
      var d := Renumber(cur, chain, number);
      var started := cur.(chain := if cur.chain.None? then Some(chain) else cur.chain, chainIdRepeats := d.repeats);
      match NumberToHybrid36(if resetNumbers then d.number else number, 4)
      case Err(e) => Step(Err(e), started)
      case Ok(field) =>
        Step(Ok((ChainLine(line, d.chainId, field, ChainStr(d.chainId, d.repeats)), d.isTer)),
             Current(cur.atomNumber, number, d.number, d.chainId, d.repeats, Some(chain)))
  }

  /** The result of a step that may raise, with the state it leaves behind either way. */
  datatype Step<T> = Step(out: Result<T>, next: Current)

  /** The successful case of `MoleculeChainStep`, unfolded. */
  lemma MoleculeChainStepOk(cur: Current, line: string, resetNumbers: bool, number: int, field: string)
    requires MoleculeNumber(line) == Some(number)
    requires NumberToHybrid36(if resetNumbers then Renumber(cur, Segment(line), number).number else number, 4) == Ok(field)
    ensures var d := Renumber(cur, Segment(line), number);
      MoleculeChainStep(cur, line, resetNumbers)
      == Step(Ok((ChainLine(line, d.chainId, field, ChainStr(d.chainId, d.repeats)), d.isTer)),
              Current(cur.atomNumber, number, d.number, d.chainId, d.repeats, Some(Segment(line))))
  {
  }

  /** After a successful step the state holds exactly what was read and decided: the segment, the
      residue number read, and the chain letter, residue number and repeat count written; TER is
      flagged exactly at a break. */
  lemma MoleculeChainStepState(cur: Current, line: string, resetNumbers: bool)
    requires MoleculeChainStep(cur, line, resetNumbers).out.Ok?
    ensures var r := MoleculeChainStep(cur, line, resetNumbers);
      var number := r.next.oldMoleculeNumber;
      var d := Renumber(cur, Segment(line), number);
      MoleculeNumber(line) == Some(number) && r.next.chain == Some(Segment(line))
      && r.next == Current(cur.atomNumber, number, d.number, d.chainId, d.repeats, Some(Segment(line)))
      && r.out.value.1 == Breaks(cur, Segment(line), number)
  {
    var number := MoleculeNumber(line).value;
    var d := Renumber(cur, Segment(line), number);
    var n := if resetNumbers then d.number else number;
    MoleculeChainStepOk(cur, line, resetNumbers, number, NumberToHybrid36(n, 4).value);
    RenumberTer(cur, Segment(line), number);
  }

  /** A successful step read a residue number, and flags TER exactly at a break. */
  lemma MoleculeChainStepTer(cur: Current, line: string, resetNumbers: bool)
    requires MoleculeChainStep(cur, line, resetNumbers).out.Ok?
    ensures MoleculeNumber(line).Some?
    ensures MoleculeChainStep(cur, line, resetNumbers).out.value.1 == Breaks(cur, Segment(line), MoleculeNumber(line).value)
  {
    MoleculeChainStepState(cur, line, resetNumbers);
  }

  /** The rewritten record carries the new chain letter, a residue field that reads back as the
      number written and the new segment field, and keeps every other column. */
  lemma MoleculeChainStepColumns(cur: Current, line: string, resetNumbers: bool)
    requires |line| >= 76 && 0 <= cur.chainIdRepeats < 999
    requires MoleculeChainStep(cur, line, resetNumbers).out.Ok?
    ensures var r := MoleculeChainStep(cur, line, resetNumbers);
      var out := r.out.value.0;
      |out| == |line| && out[21] == r.next.chainId
      && Hybrid36ToNumber(out[22..26], 4) == Some(if resetNumbers then r.next.lastMoleculeNumber else r.next.oldMoleculeNumber)
      && out[72..76] == ChainStr(r.next.chainId, r.next.chainIdRepeats)
      && out[..21] == line[..21] && out[26..67] == line[26..67] && out[67..72] == "     " && out[76..] == line[76..]
  {
    var number := MoleculeNumber(line).value;
    var d := Renumber(cur, Segment(line), number);
    var n := if resetNumbers then d.number else number;
    var field := NumberToHybrid36(n, 4).value;
    MoleculeChainStepOk(cur, line, resetNumbers, number, field);
    var cs := ChainStr(d.chainId, d.repeats);
    RenumberRepeats(cur, Segment(line), number);
    ChainLineRead(line, d.chainId, n, field, cs, d.repeats);
  }

  lemma ChainLineRead(line: string, id: char, n: int, field: string, cs: string, repeats: int)
    requires |line| >= 76 && 0 <= repeats < 1000 && cs == ChainStr(id, repeats)
    requires NumberToHybrid36(n, 4) == Ok(field)
    ensures var out := ChainLine(line, id, field, cs);
      |out| == |line| && out[21] == id && Hybrid36ToNumber(out[22..26], 4) == Some(n) && out[72..76] == cs
      && out[..21] == line[..21] && out[26..67] == line[26..67] && out[67..72] == "     " && out[76..] == line[76..]
  {
    Hybrid36Width(n, 4);
    Hybrid36RoundTrip(n, 4);
    ChainStrWidth(id, repeats);
  }

  /** The first ATOM record a fresh rewriter sees is written as residue 1 of chain `A`, without TER. */
  lemma MoleculeChainStepFirst(line: string)
    requires |line| >= 76 && MoleculeNumber(line).Some?
    ensures var r := MoleculeChainStep(Initial, line, true);
      r.out.Ok? && r.out.value.0[21] == 'A' && r.out.value.0[22..26] == "   1" && !r.out.value.1
      && r.out.value.0[72..76] == "A001"
  {
    var number := MoleculeNumber(line).value;
    var d := Renumber(Initial, Segment(line), number);
    assert d == Renumbering('A', 1, false, 1);
    var field := OneField();
    var cs := ChainStr('A', 1);
    assert cs == "A001" by {
      OneString();
    }
    MoleculeChainStepOk(Initial, line, true, number, field);
  }

  lemma OneString()
    ensures IntToString(1) == "1"
  {
    assert Encode(Decimal, 1) == [Decimal[1]];
  }

  /** Residue 1 in the four-column field. */
  function OneField(): (r: string)
    ensures NumberToHybrid36(1, 4) == Ok(r) && r == "   1"
  {
    assert Pow(10, 0) == 1 && Pow(10, 3) == 1000 && Pow(10, 4) == 10000;
    OneString();
    RJust("1", 4, ' ')
  }

  /** `correct_atom_number` (pdbCorrection.py:114-119): the serial number in hybrid-36 over columns
      6..11, then the counter advances; a counter out of the five-column range raises `ValueError`
      before it advances. */
  function AtomNumberStep(cur: Current, line: string): (r: Step<string>)
    ensures r.out.Err? <==> !(Lowest(5) <= cur.atomNumber < Limit(5))
    ensures r.out.Err? ==> r.out.error == ValueError && r.next == cur
    ensures r.out.Ok? ==> r.next == cur.(atomNumber := cur.atomNumber + 1)
    ensures r.out.Ok? && |line| >= 6 && line[5] == ' ' ==> SamePrefix(line, r.out.value, 6)
  {
    Hybrid36Defined(cur.atomNumber, 5);
    match NumberToHybrid36(cur.atomNumber, 5)
    case Err(e) => Step(Err(e), cur)
    case Ok(field) => Step(Ok(SerialLine(line, field)), cur.(atomNumber := cur.atomNumber + 1))
  }

  /** The record with `field` as its serial number, columns 6..11 (column 5 blanked). */
  function SerialLine(line: string, field: string): (r: string)
    ensures |line| >= 11 && |field| == 5 ==>
      |r| == |line| && r[..5] == line[..5] && r[5] == ' ' && r[6..11] == field && r[11..] == line[11..]
    ensures |line| >= 6 && line[5] == ' ' ==> SamePrefix(line, r, 6)
  {
    var rest := " " + field + From(line, 11);
    if |line| >= 6 then
      PrefixKept(line, 5, rest, 5);
      var r := Slice(line, 0, 5) + rest;
      assert r[..6] == r[..5] + [r[5]] && line[..6] == line[..5] + [line[5]];
      r
    else Slice(line, 0, 5) + rest
  }

  /** The serial number field reads back as the counter the record was written with, and the rest
      of the record is kept. */
  lemma AtomNumberColumns(cur: Current, line: string)
    requires |line| >= 11 && AtomNumberStep(cur, line).out.Ok?
    ensures var out := AtomNumberStep(cur, line).out.value;
      |out| == |line| && out[..5] == line[..5] && out[5] == ' ' && out[11..] == line[11..]
      && Hybrid36ToNumber(out[6..11], 5) == Some(cur.atomNumber)
  {
    Hybrid36Width(cur.atomNumber, 5);
    Hybrid36RoundTrip(cur.atomNumber, 5);
    var field := NumberToHybrid36(cur.atomNumber, 5).value;
    assert AtomNumberStep(cur, line).out.value == SerialLine(line, field);
  }
}

/** `correct_pdb` (pdbCorrection.py:77-112) as a function of the input lines and the state: which
    records are kept, which are rewritten, where TER records go, and the header and trailer. */
module PdbRun {
  import opened Wrappers
  import opened PyStr
  import opened PdbLines
  import opened PdbCorrection

  /** The switches of `correct_pdb`. */
  datatype Flags = Flags(
    addHeader: bool,
    nomenclature: bool,
    moleculeChain: bool,
    atomNumber: bool,
    occupancy: bool,
    atomtype: bool,
    removeH: bool)

  // the header written as two literals: the verifier reads characters of short literals only
  const Header: string := "AUTHORS:     Martin, Casanal, Feigl" + "        VERSION: 0.2.0\n"
  const Ter: string := "TER\n"
  const Trailer: string := "TER\nEND\n"

  /** The record name, columns 0..6. */
  function RecordName(line: string): string {
    Slice(line, 0, 6)
  }

  predicate IsVerbatim(line: string) {
    RecordName(line) == "TITLE " || RecordName(line) == "CRYST1"
  }

  /** An ATOM record with a non-blank name in columns 13..15: the records `correct_pdb` rewrites. */
  predicate IsCorrected(line: string) {
    RecordName(line) == "ATOM  " && Slice(line, 13, 15) != "  "
  }

  /** The steps after renumbering.  `isTer` is the flag of the renumbering step, `None` when that
      step is switched off: the source then reads a local that was never assigned. */
  function FinishAtom(cur: Current, line: string, isTer: Option<bool>, flags: Flags): Step<seq<string>> {
    var a := if flags.atomNumber then AtomNumberStep(cur, line) else Step(Ok(line), cur);
    if a.out.Err? then Step(Err(a.out.error), a.next)
    else
      var occupied := if flags.occupancy then CorrectOccupancy(a.out.value) else a.out.value;
      var typed := if flags.atomtype then CorrectAtomtype(occupied) else Ok(occupied);
      if typed.Err? then Step(Err(typed.error), a.next)
      else
        var last := if flags.removeH then RemoveH(typed.value) else typed.value;
        if isTer.None? then Step(Err(UnboundLocalError), a.next)
        else Step(Ok((if isTer.value then [Ter] else []) + [last]), a.next)
  }

  /** One rewritten ATOM record, in the order of pdbCorrection.py:93-108. */
  function CorrectAtom(cur: Current, reverse: bool, line: string, flags: Flags): Step<seq<string>> {
    var named := if flags.nomenclature then CorrectNomenclature(reverse, line) else line;
    if flags.moleculeChain then
      var m := MoleculeChainStep(cur, named, true);
      if m.out.Err? then Step(Err(m.out.error), m.next)
      else FinishAtom(m.next, m.out.value.0, Some(m.out.value.1), flags)
    else FinishAtom(cur, named, None, flags)
  }

  /** The pieces one input line contributes to the output. */
  function LineStep(cur: Current, reverse: bool, line: string, flags: Flags): Step<seq<string>> {
    if IsVerbatim(line) then Step(Ok([line]), cur)
    else if IsCorrected(line) then CorrectAtom(cur, reverse, line, flags)
    else Step(Ok([]), cur)
  }

  /** The loop of `correct_pdb` over a prefix of the input: the pieces appended so far, or the
      first exception, with the state either way. */
  function Run(cur: Current, reverse: bool, lines: seq<string>, flags: Flags): Step<seq<string>>
    decreases |lines|
  {
    if lines == [] then Step(Ok([]), cur)
    else
      var prev := Run(cur, reverse, lines[..|lines| - 1], flags);
      if prev.out.Err? then prev
      else
        var s := LineStep(prev.next, reverse, lines[|lines| - 1], flags);
        if s.out.Err? then Step(Err(s.out.error), s.next) else Step(Ok(prev.out.value + s.out.value), s.next)
  }

  /** The first exception ends the run: later lines change neither the outcome nor the state. */
  lemma {:induction false} RunErrKept(cur: Current, reverse: bool, lines: seq<string>, j: nat, flags: Flags)
    requires j <= |lines| && Run(cur, reverse, lines[..j], flags).out.Err?
    ensures Run(cur, reverse, lines, flags) == Run(cur, reverse, lines[..j], flags)
    decreases |lines|
  {
    if j < |lines| {
      var pre := lines[..|lines| - 1];
      assert pre[..j] == lines[..j];
      RunErrKept(cur, reverse, pre, j, flags);
    } else {
      RunAll(cur, reverse, lines, flags);
    }
  }

  /** One more line: the run so far, then that line's step. */
  lemma RunStep(cur: Current, reverse: bool, lines: seq<string>, i: nat, flags: Flags)
    requires i < |lines| && Run(cur, reverse, lines[..i], flags).out.Ok?
    ensures var prev := Run(cur, reverse, lines[..i], flags);
      var s := LineStep(prev.next, reverse, lines[i], flags);
      Run(cur, reverse, lines[..i + 1], flags)
      == if s.out.Err? then Step(Err(s.out.error), s.next) else Step(Ok(prev.out.value + s.out.value), s.next)
  {
    assert lines[..i + 1][..i] == lines[..i];
  }

  lemma RunAll(cur: Current, reverse: bool, lines: seq<string>, flags: Flags)
    ensures Run(cur, reverse, lines[..|lines|], flags) == Run(cur, reverse, lines, flags)
  {
    assert lines[..|lines|] == lines;
  }

  /** `''.join(pieces)`. */
  function Concat(pieces: seq<string>): string {
    if pieces == [] then [] else pieces[0] + Concat(pieces[1..])
  }

  lemma {:induction false} ConcatAppend(a: seq<string>, b: seq<string>)
    ensures Concat(a + b) == Concat(a) + Concat(b)
  {
    if a == [] {
      assert a + b == b;
    } else {
      assert (a + b)[0] == a[0] && (a + b)[1..] == a[1..] + b;
      ConcatAppend(a[1..], b);
    }
  }

  /** The pieces of the whole output: the optional header, the pieces of every line, the trailer. */
  function Pieces(flags: Flags, body: seq<string>): seq<string> {
    (if flags.addHeader then [Header] else []) + body + [Trailer]
  }

  /** `correct_pdb`: the output text, or the exception that stopped it, and the final state. */
  function CorrectPdb(cur: Current, reverse: bool, lines: seq<string>, flags: Flags): Step<string> {
    var r := Run(cur, reverse, lines, flags);
    if r.out.Err? then Step(Err(r.out.error), r.next) else Step(Ok(Concat(Pieces(flags, r.out.value))), r.next)
  }

  /** The output always ends with `TER` and `END`. */
  lemma CorrectPdbTrailer(cur: Current, reverse: bool, lines: seq<string>, flags: Flags)
    requires CorrectPdb(cur, reverse, lines, flags).out.Ok?
    ensures var out := CorrectPdb(cur, reverse, lines, flags).out.value;
      |out| >= |Trailer| && out[|out| - |Trailer|..] == Trailer
  {
    var p := Run(cur, reverse, lines, flags).out.value;
    var front := (if flags.addHeader then [Header] else []) + p;
    assert Pieces(flags, p) == front + [Trailer];
    ConcatAppend(front, [Trailer]);
    assert Concat([Trailer]) == Trailer + Concat([]);
  }

  predicate StartsWith(s: string, prefix: string) {
    |prefix| <= |s| && s[..|prefix|] == prefix
  }

  /** What the output may be made of: TER records, kept TITLE, CRYST1 and ATOM records, and the empty
      strings left by hydrogen removal. */
  predicate Emitted(piece: string) {
    piece == [] || piece == Ter || RecordName(piece) == "TITLE " || RecordName(piece) == "CRYST1"
    || RecordName(piece) == "ATOM  "
  }

  lemma SamePrefixName(a: string, b: string)
    requires SamePrefix(a, b, 6)
    ensures RecordName(a) == RecordName(b)
  {
  }

  /** Every step of the rewrite keeps the record name. */
  lemma StepsKeepName(cur: Current, reverse: bool, line: string)
    requires |line| >= 6
    ensures SamePrefix(line, CorrectNomenclature(reverse, line), 6)
    ensures SamePrefix(line, CorrectOccupancy(line), 6)
    ensures CorrectAtomtype(line).Ok? ==> SamePrefix(line, CorrectAtomtype(line).value, 6)
    ensures line[5] == ' ' && AtomNumberStep(cur, line).out.Ok? ==> SamePrefix(line, AtomNumberStep(cur, line).out.value, 6)
    ensures MoleculeChainStep(cur, line, true).out.Ok? ==> SamePrefix(line, MoleculeChainStep(cur, line, true).out.value.0, 6)
  {
  }
  /** The rest of a rewritten ATOM record: its TER record if renumbering asked for one, then the
      record, which keeps its name unless hydrogen removal emptied it. */
  lemma FinishAtomShape(cur: Current, line: string, isTer: Option<bool>, flags: Flags)
    requires |line| >= 6 && line[5] == ' ' && FinishAtom(cur, line, isTer, flags).out.Ok?
    ensures var p := FinishAtom(cur, line, isTer, flags).out.value;
      isTer.Some? && |p| >= 1 && p == (if isTer.value then [Ter] else []) + [p[|p| - 1]]
      && (p[|p| - 1] == [] || RecordName(p[|p| - 1]) == RecordName(line))
  {
    var a := if flags.atomNumber then AtomNumberStep(cur, line) else Step(Ok(line), cur);
    var l1 := a.out.value;
    assert SamePrefix(line, l1, 6);
    var l2 := if flags.occupancy then CorrectOccupancy(l1) else l1;
    assert SamePrefix(l1, l2, 6);
    var t := if flags.atomtype then CorrectAtomtype(l2) else Ok(l2);
    var l3 := t.value;
    assert SamePrefix(l2, l3, 6);
    var last := if flags.removeH then RemoveH(l3) else l3;
    assert FinishAtom(cur, line, isTer, flags) == Step(Ok((if isTer.value then [Ter] else []) + [last]), a.next);
    if last != [] {
      SamePrefixName(line, last);
    }
  }

  /** The record name `ATOM  ` ends in a blank. */
  lemma AtomBlank(line: string)
    requires RecordName(line) == "ATOM  "
    ensures |line| >= 6 && line[5] == ' '
  {
    assert RecordName(line)[5] == line[5];
  }

  /** A rewritten ATOM record goes through renumbering (without it the source fails), and renumbering
      keeps the record name. */
  lemma CorrectAtomChained(cur: Current, reverse: bool, line: string, flags: Flags)
    requires RecordName(line) == "ATOM  " && CorrectAtom(cur, reverse, line, flags).out.Ok?
    ensures var named := if flags.nomenclature then CorrectNomenclature(reverse, line) else line;
      var m := MoleculeChainStep(cur, named, true);
      flags.moleculeChain && m.out.Ok? && SamePrefix(line, m.out.value.0, 6)
      && CorrectAtom(cur, reverse, line, flags) == FinishAtom(m.next, m.out.value.0, Some(m.out.value.1), flags)
  {
    AtomBlank(line);
    var named := if flags.nomenclature then CorrectNomenclature(reverse, line) else line;
    assert SamePrefix(line, named, 6);
    if !flags.moleculeChain {
      FinishAtomShape(cur, named, None, flags);
    }
  }

  /** A rewritten ATOM record is preceded by a TER record exactly when renumbering finds a break. */
  lemma CorrectAtomTer(cur: Current, reverse: bool, line: string, flags: Flags)
    requires RecordName(line) == "ATOM  " && CorrectAtom(cur, reverse, line, flags).out.Ok?
    ensures var p := CorrectAtom(cur, reverse, line, flags).out.value;
      var named := if flags.nomenclature then CorrectNomenclature(reverse, line) else line;
      flags.moleculeChain && MoleculeNumber(named).Some?
      && (|p| == 2 <==> Breaks(cur, Segment(named), MoleculeNumber(named).value))
  {
    AtomBlank(line);
    CorrectAtomChained(cur, reverse, line, flags);
    var named := if flags.nomenclature then CorrectNomenclature(reverse, line) else line;
    var m := MoleculeChainStep(cur, named, true);
    MoleculeChainStepTer(cur, named, true);
    var l, t := m.out.value.0, m.out.value.1;
    assert l[5] == l[..6][5] == line[..6][5] == ' ';
    FinishAtomShape(m.next, l, Some(t), flags);
  }

  /** What a rewritten ATOM record contributes: an optional TER record, then the record, still an
      ATOM record unless hydrogen removal emptied it. */
  lemma CorrectAtomPieces(cur: Current, reverse: bool, line: string, flags: Flags)
    requires RecordName(line) == "ATOM  " && CorrectAtom(cur, reverse, line, flags).out.Ok?
    ensures var p := CorrectAtom(cur, reverse, line, flags).out.value;
      (|p| == 1 || |p| == 2) && (|p| == 2 ==> p[0] == Ter)
      && (p[|p| - 1] == [] || RecordName(p[|p| - 1]) == "ATOM  ")
  {
    AtomBlank(line);
    CorrectAtomChained(cur, reverse, line, flags);
    var named := if flags.nomenclature then CorrectNomenclature(reverse, line) else line;
    var m := MoleculeChainStep(cur, named, true);
    var l, t := m.out.value.0, m.out.value.1;
    assert l[5] == l[..6][5] == line[..6][5] == ' ';
    SamePrefixName(line, l);
    FinishAtomShape(m.next, l, Some(t), flags);
  }

  /** What one line contributes is made of emitted pieces only. */
  lemma LineStepEmitted(cur: Current, reverse: bool, line: string, flags: Flags)
    requires LineStep(cur, reverse, line, flags).out.Ok?
    ensures var p := LineStep(cur, reverse, line, flags).out.value;
      forall k :: 0 <= k < |p| ==> Emitted(p[k])
  {
    if !IsVerbatim(line) && IsCorrected(line) {
      CorrectAtomPieces(cur, reverse, line, flags);
      AtomPiecesEmitted(CorrectAtom(cur, reverse, line, flags).out.value);
    }
  }

  /** An optional TER record followed by an ATOM record or nothing is made of emitted pieces. */
  lemma AtomPiecesEmitted(p: seq<string>)
    requires (|p| == 1 || |p| == 2) && (|p| == 2 ==> p[0] == Ter)
    requires p[|p| - 1] == [] || RecordName(p[|p| - 1]) == "ATOM  "
    ensures forall k :: 0 <= k < |p| ==> Emitted(p[k])
  {
  }

  /** The body of `correct_pdb` is made of emitted pieces only. */
  lemma {:induction false} RunEmitted(cur: Current, reverse: bool, lines: seq<string>, flags: Flags)
    requires Run(cur, reverse, lines, flags).out.Ok?
    ensures var p := Run(cur, reverse, lines, flags).out.value;
      forall k :: 0 <= k < |p| ==> Emitted(p[k])
    decreases |lines|
  {
    if lines != [] {
      var prev := Run(cur, reverse, lines[..|lines| - 1], flags);
      RunEmitted(cur, reverse, lines[..|lines| - 1], flags);
      LineStepEmitted(prev.next, reverse, lines[|lines| - 1], flags);
    }
  }

  /** A text whose first two characters are not those of the header, `AU`. */
  predicate Lead(s: string) {
    |s| >= 2 && !(s[0] == 'A' && s[1] == 'U')
  }

  lemma EmittedLead(piece: string)
    requires Emitted(piece) && piece != []
    ensures Lead(piece)
  {
    if piece != Ter {
      assert piece[1] == RecordName(piece)[1];
    }
  }

  lemma HeaderBegins()
    ensures |Header| >= 2 && Header[0] == 'A' && Header[1] == 'U'
  {
  }

  /** Joining pieces that each are empty or lead, the last of which leads, gives a text that leads. */
  lemma {:induction false} ConcatLead(pieces: seq<string>)
    requires pieces != [] && Lead(pieces[|pieces| - 1])
    requires forall k :: 0 <= k < |pieces| ==> pieces[k] == [] || Lead(pieces[k])
    ensures Lead(Concat(pieces))
  {
    if pieces[0] == [] {
      assert Concat(pieces) == Concat(pieces[1..]);
      ConcatLead(pieces[1..]);
    } else {
      var rest := Concat(pieces[1..]);
      assert (pieces[0] + rest)[0] == pieces[0][0] && (pieces[0] + rest)[1] == pieces[0][1];
    }
  }

  /** The output begins with the header exactly when the header was asked for. */
  lemma CorrectPdbHeader(cur: Current, reverse: bool, lines: seq<string>, flags: Flags)
    requires CorrectPdb(cur, reverse, lines, flags).out.Ok?
    ensures StartsWith(CorrectPdb(cur, reverse, lines, flags).out.value, Header) <==> flags.addHeader
  {
    var p := Run(cur, reverse, lines, flags).out.value;
    var out := CorrectPdb(cur, reverse, lines, flags).out.value;
    if flags.addHeader {
      assert Pieces(flags, p) == [Header] + (p + [Trailer]);
      ConcatAppend([Header], p + [Trailer]);
      assert Concat([Header]) == Header + Concat([]);
    } else {
      var ps := p + [Trailer];
      assert Pieces(flags, p) == ps;
      RunEmitted(cur, reverse, lines, flags);
      forall k | 0 <= k < |ps| ensures ps[k] == [] || Lead(ps[k]) {
        if k < |p| {
          if p[k] != [] {
            EmittedLead(p[k]);
          }
        } else {
          assert ps[k] == Trailer && Trailer[0] == 'T';
        }
      }
      ConcatLead(ps);
      HeaderBegins();
    }
  }
}
