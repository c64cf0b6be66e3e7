/** The fixed-column rewrites `PDB_Corr` applies to one PDB ATOM record (pdbCorrection.py): atom and
    residue renaming, occupancy and temperature factor, element symbol and hydrogen removal.  Columns
    are 0-based Python slice positions. */
module PdbLines {
  import opened Wrappers
  import opened PyStr

  const Occ: string := "9.99"
  const Bfac: string := "1.00"

  /** `nomcla`: enrgMD atom names and their wwPDB spelling. */
  function AtomName(name: string): Option<string> {
    if name == " O1P" then Some(" OP1")
    else if name == " O2P" then Some(" OP2")
    else if name == " C5M" then Some(" C7 ")
    else None
  }

  /** `nomcla_rev`. */
  function AtomNameRev(name: string): Option<string> {
    if name == " OP1" then Some(" O1P")
    else if name == " OP2" then Some(" O2P")
    else if name == " C7 " then Some(" C5M")
    else None
  }

  /** `nomcla_base`: enrgMD residue names, including the 5' and 3' terminal variants, and the
      wwPDB DNA residue names. */
  function BaseName(name: string): Option<string> {
    if name == "CYT" || name == "DC5" || name == "DC3" then Some(" DC")
    else if name == "GUA" || name == "DG5" || name == "DG3" then Some(" DG")
    else if name == "THY" || name == "DT5" || name == "DT3" then Some(" DT")
    else if name == "ADE" || name == "DA5" || name == "DA3" then Some(" DA")
    else None
  }

  /** `nomcla_base_rev`. */
  function BaseNameRev(name: string): Option<string> {
    if name == " DC" then Some("CYT")
    else if name == " DG" then Some("GUA")
    else if name == " DT" then Some("THY")
    else if name == " DA" then Some("ADE")
    else None
  }

  /** The active atom table: `nomcla_rev` when converting back to enrgMD names. */
  function AtomTable(reverse: bool, name: string): Option<string> {
    if reverse then AtomNameRev(name) else AtomName(name)
  }

  function BaseTable(reverse: bool, name: string): Option<string> {
    if reverse then BaseNameRev(name) else BaseName(name)
  }

  /** A table lookup that keeps names the table does not know. */
  function Rename(entry: Option<string>, name: string): string {
    if entry.Some? then entry.value else name
  }

  /** Each table replaces names by names of the same width, and no replacement is renamed again
      by the same table. */
  lemma AtomNameSettled(name: string)
    ensures AtomName(name).Some? ==> |name| == 4 && |AtomName(name).value| == 4 && AtomName(AtomName(name).value).None?
  {
  }

  lemma AtomNameRevSettled(name: string)
    ensures AtomNameRev(name).Some? ==> |name| == 4 && |AtomNameRev(name).value| == 4 && AtomNameRev(AtomNameRev(name).value).None?
  {
  }

  lemma BaseNameSettled(name: string)
    ensures BaseName(name).Some? ==> |name| == 3 && |BaseName(name).value| == 3 && BaseName(BaseName(name).value).None?
  {
  }

  lemma BaseNameRevSettled(name: string)
    ensures BaseNameRev(name).Some? ==> |name| == 3 && |BaseNameRev(name).value| == 3 && BaseNameRev(BaseNameRev(name).value).None?
  {
  }

  /** The active tables keep widths: an atom name stays four columns wide, a residue name three. */
  lemma TableWidths(reverse: bool, atom: string, base: string)
    requires |atom| == 4 && |base| == 3
    ensures |Rename(AtomTable(reverse, atom), atom)| == 4 && |Rename(BaseTable(reverse, base), base)| == 3
  {
    AtomNameSettled(atom);
    AtomNameRevSettled(atom);
    BaseNameSettled(base);
    BaseNameRevSettled(base);
  }

  /** Renaming with the active tables is idempotent. */
  lemma TablesSettled(reverse: bool, atom: string, base: string)
    ensures var a := Rename(AtomTable(reverse, atom), atom); Rename(AtomTable(reverse, a), a) == a
    ensures var b := Rename(BaseTable(reverse, base), base); Rename(BaseTable(reverse, b), b) == b
  {
    AtomNameSettled(atom);
    AtomNameRevSettled(atom);
    BaseNameSettled(base);
    BaseNameRevSettled(base);
  }

  /** The two atom tables are inverse to each other. */
  lemma AtomNamesInverse(name: string)
    ensures AtomName(name).Some? ==> AtomNameRev(AtomName(name).value) == Some(name)
    ensures AtomNameRev(name).Some? ==> AtomName(AtomNameRev(name).value) == Some(name)
  {
  }

  /** The reverse residue table is undone by the forward one, and the forward table is undone by the
      reverse one on the four canonical names. */
  lemma BaseNamesInverse(name: string)
    ensures BaseNameRev(name).Some? ==> BaseName(BaseNameRev(name).value) == Some(name)
    ensures name in {"CYT", "GUA", "THY", "ADE"} ==> BaseName(name).Some? && BaseNameRev(BaseName(name).value) == Some(name)
  {
  }

  /** The line with its atom name replaced by `atom`, the alternate-location column blanked and its
      residue name replaced by `base`. */
  function Rewrite(line: string, atom: string, base: string): (r: string)
    ensures |line| >= 20 && |atom| == 4 && |base| == 3 ==>
      |r| == |line| && r[..12] == line[..12] && r[12..16] == atom && r[16] == ' ' && r[17..20] == base && r[20..] == line[20..]
    ensures |line| >= 6 ==> SamePrefix(line, r, 6)
  {
    var rest := atom + " " + base + From(line, 20);
    if |line| >= 6 then PrefixKept(line, 12, rest, 6); Slice(line, 0, 12) + rest
    else Slice(line, 0, 12) + rest
  }

  lemma RewriteTwice(line: string, a1: string, b1: string, a2: string, b2: string)
    requires |line| >= 20 && |a1| == 4 && |b1| == 3
    ensures Rewrite(Rewrite(line, a1, b1), a2, b2) == Rewrite(line, a2, b2)
  {
    var once := Rewrite(line, a1, b1);
    assert Slice(once, 0, 12) == Slice(line, 0, 12);
    assert From(once, 20) == From(line, 20);
  }

  lemma RewriteSame(line: string)
    requires |line| >= 20 && line[16] == ' '
    ensures Rewrite(line, line[12..16], line[17..20]) == line
  {
    var r := Rewrite(line, line[12..16], line[17..20]);
    assert r == line[..12] + line[12..16] + line[16..17] + line[17..20] + line[20..];
    assert line == line[..12] + line[12..16] + line[16..17] + line[17..20] + line[20..];
  }

  /** `correct_nomenclature` (pdbCorrection.py:121-136): renames the atom name (columns 12..16) and
      the residue name (17..20) by the active table and blanks the alternate-location column 16. */
  function CorrectNomenclature(reverse: bool, line: string): (r: string)
    ensures |line| >= 20 ==> |r| == |line| && r[..12] == line[..12] && r[16] == ' ' && r[20..] == line[20..]
    ensures |line| >= 20 ==> r[12..16] == Rename(AtomTable(reverse, line[12..16]), line[12..16])
    ensures |line| >= 20 ==> r[17..20] == Rename(BaseTable(reverse, line[17..20]), line[17..20])
    ensures |line| >= 6 ==> SamePrefix(line, r, 6)
  {
    var atom := Slice(line, 12, 16);
    var base := Slice(line, 17, 20);
    if |line| >= 20 then TableWidths(reverse, atom, base); assert atom == line[12..16] && base == line[17..20];
      Rewrite(line, Rename(AtomTable(reverse, atom), atom), Rename(BaseTable(reverse, base), base))
    else Rewrite(line, Rename(AtomTable(reverse, atom), atom), Rename(BaseTable(reverse, base), base))
  }

  /** Renaming twice with the same table renames once. */
  lemma NomenclatureIdempotent(reverse: bool, line: string)
    requires |line| >= 20
    ensures CorrectNomenclature(reverse, CorrectNomenclature(reverse, line)) == CorrectNomenclature(reverse, line)
  {
    var atom, base := line[12..16], line[17..20];
    var a := Rename(AtomTable(reverse, atom), atom);
    var b := Rename(BaseTable(reverse, base), base);
    var once := CorrectNomenclature(reverse, line);
    TableWidths(reverse, atom, base);
    TablesSettled(reverse, atom, base);
    assert once == Rewrite(line, a, b);
    assert once[12..16] == a && once[17..20] == b;
    RewriteTwice(line, a, b, a, b);
  }

  /** Converting to the wwPDB names and back restores the line, for atom and residue names the two
      tables treat as a pair (and a blank alternate-location column). */
  lemma NomenclatureRoundTrip(line: string)
    requires |line| >= 20 && line[16] == ' '
    requires AtomName(line[12..16]).Some? || AtomNameRev(line[12..16]).None?
    requires line[17..20] in {"CYT", "GUA", "THY", "ADE"} || (BaseName(line[17..20]).None? && BaseNameRev(line[17..20]).None?)
    ensures CorrectNomenclature(true, CorrectNomenclature(false, line)) == line
  {
    var atom, base := line[12..16], line[17..20];
    var a := Rename(AtomName(atom), atom);
    var b := Rename(BaseName(base), base);
    AtomNamesInverse(atom);
    BaseNamesInverse(base);
    TableWidths(false, atom, base);
    assert Rename(AtomNameRev(a), a) == atom;
    assert Rename(BaseNameRev(b), b) == base;
    var there := CorrectNomenclature(false, line);
    assert there == Rewrite(line, a, b);
    assert CorrectNomenclature(true, there) == Rewrite(there, atom, base);
    RewriteTwice(line, a, b, atom, base);
    RewriteSame(line);
  }

  /** The other direction: wwPDB names converted to enrgMD names and back. */
  lemma NomenclatureRoundTripReverse(line: string)
    requires |line| >= 20 && line[16] == ' '
    requires AtomNameRev(line[12..16]).Some? || AtomName(line[12..16]).None?
    requires BaseNameRev(line[17..20]).Some? || BaseName(line[17..20]).None?
    ensures CorrectNomenclature(false, CorrectNomenclature(true, line)) == line
  {
    var atom, base := line[12..16], line[17..20];
    var a := Rename(AtomNameRev(atom), atom);
    var b := Rename(BaseNameRev(base), base);
    AtomNamesInverse(atom);
    BaseNamesInverse(base);
    TableWidths(true, atom, base);
    assert Rename(AtomName(a), a) == atom;
    assert Rename(BaseName(b), b) == base;
    var there := CorrectNomenclature(true, line);
    assert there == Rewrite(line, a, b);
    assert CorrectNomenclature(false, there) == Rewrite(there, atom, base);
    RewriteTwice(line, a, b, atom, base);
    RewriteSame(line);
  }

  /** `correct_occupancy` (pdbCorrection.py:138-140): columns 54..66 become `"  1.00  9.99"`, the
      rest of the line is kept; a line shorter than 54 columns is extended. */
  function CorrectOccupancy(line: string): (r: string)
    ensures |line| >= 66 ==> |r| == |line| && r[..54] == line[..54] && r[66..] == line[66..]
    ensures |line| >= 54 ==> |r| >= 66 && r[54..66] == "  1.00  9.99"
    ensures |line| <= 54 ==> r == line + "  1.00  9.99"
    ensures |line| >= 6 ==> SamePrefix(line, r, 6)
  {
    var rest := "  " + Bfac + "  " + Occ + From(line, 66);
    var cut := Slice(line, 0, 54);
    assert rest[..12] == "  1.00  9.99";
    assert |line| >= 54 ==> |cut| == 54 && (cut + rest)[54..66] == rest[..12];
    if |line| >= 6 then PrefixKept(line, 54, rest, 6); cut + rest
    else cut + rest
  }

  lemma OccupancyIdempotent(line: string)
    requires |line| >= 54
    ensures CorrectOccupancy(CorrectOccupancy(line)) == CorrectOccupancy(line)
  {
    var once := CorrectOccupancy(line);
    assert once == once[..54] + once[54..66] + From(line, 66);
  }

  /** `remove_H` (pdbCorrection.py:203-208): a line whose atom name contains `H` is dropped (the empty
      string), every other line is kept. */
  function RemoveH(line: string): (r: string)
    ensures r == [] || r == line
    ensures 'H' in Slice(line, 12, 16) <==> r == [] && line != []
  {
    if 'H' in Slice(line, 12, 16) then "" else line
  }

  lemma RemoveHIdempotent(line: string)
    ensures RemoveH(RemoveH(line)) == RemoveH(line)
  {
  }

  /** The element symbol `correct_atomtype` derives from the first two atom-name columns: a digit in
      the second column is dropped, surrounding whitespace is stripped, the rest is right-justified. */
  function ElementSymbol(name: string): (r: string)
    requires |name| == 2
    ensures |r| == 2
    ensures r[1] == ' ' ==> r[0] == ' '
    ensures IsDigit(name[1]) ==> r[0] == ' '
    ensures forall k :: 0 <= k < 2 && r[k] != ' ' ==> r[k] in name
  {
    var kept := if IsDigit(name[1]) then [name[0]] else name;
    var stripped := Strip(kept);
    StripInside(kept);
    RJust(stripped, 2, ' ')
  }

  /** The element symbol case by case: after a digit only the first character is kept; otherwise
      the characters that are not whitespace, right-justified to two columns. */
  lemma ElementSymbolOutcomes(name: string)
    requires |name| == 2
    ensures IsDigit(name[1]) ==> ElementSymbol(name) == (if IsSpace(name[0]) then "  " else [' ', name[0]])
    ensures !IsDigit(name[1]) ==>
      ElementSymbol(name) == (if IsSpace(name[0]) && IsSpace(name[1]) then "  "
                              else if IsSpace(name[0]) then [' ', name[1]]
                              else if IsSpace(name[1]) then [' ', name[0]]
                              else name)
  {
    if IsDigit(name[1]) {
      StripOne(name[0]);
    } else {
      StripTwo(name);
    }
  }

  lemma StripOne(c: char)
    ensures Strip([c]) == if IsSpace(c) then [] else [c]
  {
    assert [c][1..] == [];
  }

  lemma StripTwo(name: string)
    requires |name| == 2
    ensures Strip(name) == (if IsSpace(name[0]) && IsSpace(name[1]) then []
                            else if IsSpace(name[0]) then [name[1]]
                            else if IsSpace(name[1]) then [name[0]]
                            else name)
  {
    assert name[1..] == [name[1]] && name[..1] == [name[0]];
    assert [name[1]][1..] == [] && [name[0]][..0] == [];
  }

  /** The line with `element` written into columns 76..78. */
  function PutElement(line: string, element: string): (r: string)
    ensures |line| >= 78 && |element| == 2 ==>
      |r| == |line| && r[..76] == line[..76] && r[76..78] == element && r[78..] == line[78..]
    ensures |line| >= 6 ==> SamePrefix(line, r, 6)
  {
    var rest := element + From(line, 78);
    if |line| >= 6 then PrefixKept(line, 76, rest, 6); Slice(line, 0, 76) + rest
    else Slice(line, 0, 76) + rest
  }

  lemma PutElementTwice(line: string, e1: string, e2: string)
    requires |line| >= 78 && |e1| == 2
    ensures PutElement(PutElement(line, e1), e2) == PutElement(line, e2)
  {
    var once := PutElement(line, e1);
    assert Slice(once, 0, 76) == Slice(line, 0, 76);
    assert From(once, 78) == From(line, 78);
  }

  /** `correct_atomtype` (pdbCorrection.py:210-217): writes the element symbol into columns 76..78;
      a line too short to have column 13 raises `IndexError`. */
  function CorrectAtomtype(line: string): (r: Result<string>)
    ensures r.Err? <==> |line| < 14
    ensures r.Err? ==> r.error == IndexError
    ensures |line| >= 78 ==> r.Ok? && |r.value| == |line| && r.value[..76] == line[..76] && r.value[78..] == line[78..]
    ensures |line| >= 78 ==> r.value[76..78] == ElementSymbol(line[12..14])
    ensures r.Ok? ==> SamePrefix(line, r.value, 6)
  {
    var name := Slice(line, 12, 14);
    if |name| < 2 then Err(IndexError) else Ok(PutElement(line, ElementSymbol(name)))
  }

  /** The element column is derived from columns the rewrite does not touch. */
  lemma AtomtypeIdempotent(line: string)
    requires |line| >= 78
    ensures CorrectAtomtype(CorrectAtomtype(line).value) == CorrectAtomtype(line)
  {
    var e := ElementSymbol(line[12..14]);
    var once := PutElement(line, e);
    assert CorrectAtomtype(line).value == once;
    assert once[12..14] == once[..76][12..14] == line[..76][12..14] == line[12..14];
    PutElementTwice(line, e, e);
  }
}
