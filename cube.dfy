/** The input-deck surgery at the end of the cube model script (code/S2_Cube.py:121-142):
    find the part definition in the written `.inp` lines, cut out the block between the
    part header and the material orientation, and append a fixed solid-section
    definition. */
module Cube {
  import opened Python
  import opened PyStrings
  import opened SolverText

  /** `W_START` and `W_END`. */
  const PartHeader: string := "*Part, name=Part-1"
  const OrientationLine: string := "*Orientation, name=Ori-1, system=user"

  /** The three lines appended to the block, in this order. */
  const SectionComment: string := "** Section: Section-1\n"
  const SolidSection: string := "*Solid Section, elset=Cube, material=Default MATERIAL\n"
  const SectionData: string := ",\n"

  /** `find_line(lines, word)` (lines 124-127): the loop returns `lines.index(line)` for the
      first line with `line.find(word) != -1`, and falls off the end (None) when there is
      none. The index found by `list.index` is the loop position itself, because an equal
      line earlier on would have contained word too. */
  method FindLine(lines: seq<string>, word: string) returns (r: Option<nat>)
    ensures r == FirstContaining(lines, word)
  {
    for i := 0 to |lines|
      invariant forall j :: 0 <= j < i ==> !Contains(lines[j], word)
    {
      var line := lines[i];
      if Find(line, word) != -1 {
        var k := IndexOf(lines, line);
        assert k == i;
        return Some(k);
      }
    }
    return None;
  }

  /** Lines 129-137: `lines[I_START:I_END]` plus the three section lines. When the part
      header is missing, `None + 1` raises TypeError. A missing orientation line leaves
      `I_END` None, and the block runs to the end of the deck. Otherwise the block is the
      lines strictly after the header and before the orientation line, and it is empty
      when the orientation line does not come after the header. The input list is a value
      here, so it is left as it was. */
  method ExtractPartBlock(lines: seq<string>) returns (r: Result<seq<string>>)
    ensures r.Err? <==> FirstContaining(lines, PartHeader).None?
    ensures r.Err? ==> r.error == TypeError
    ensures r.Ok? ==>
              var s := FirstContaining(lines, PartHeader).value;
              var e := FirstContaining(lines, OrientationLine);
              var block := if e.None? then lines[s + 1..]
                           else if s + 1 <= e.value then lines[s + 1..e.value]
                           else [];
              r.value == block + [SectionComment, SolidSection, SectionData]
  {
    var start := FindLine(lines, PartHeader);
    if start.None? {
      return Err(TypeError);
    }
    var iStart := start.value + 1;
    var iEnd := FindLine(lines, OrientationLine);
    var newLines := Take(lines, Slice(Some(iStart), if iEnd.None? then None else Some(iEnd.value)));
    newLines := newLines + [SectionComment];
    newLines := newLines + [SolidSection];
    newLines := newLines + [SectionData];
    return Ok(newLines);
  }
}
