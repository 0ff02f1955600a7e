/** The merge of one NFS export into the text of /etc/exports: lines outside the anchored block belong to the
    operator, lines inside it to the image exports. */
module ExportsMerge {
  import opened Common

  const MANAGED := " clustr-managed NFS exports"
  const KEEP_OUT := " \U{2014} do not edit" + " between these lines"
  const BEGIN_ANCHOR := "# BEGIN" + MANAGED + KEEP_OUT
  const END_ANCHOR := "# END" + MANAGED
  const IMAGES_PREFIX := "/var/lib/clustr/images/"
  const ROOTFS := "/rootfs"

  type Lines = seq<string>

  // ----- text and lines -----

  function Join(lines: Lines): string {
    if lines == [] then "" else if |lines| == 1 then lines[0] else lines[0] + "\n" + Join(lines[1..])
  }

  /** Every line followed by a newline. */
  function Each(lines: Lines): string {
    if lines == [] then "" else lines[0] + "\n" + Each(lines[1..])
  }

  ghost predicate Clean(lines: Lines) {
    forall l | l in lines :: '\n' !in l
  }

  lemma {:induction false} SplitIsClean(text: string)
    ensures Clean(Split(text, '\n'))
  {
    if text != "" {
      SplitIsClean(text[1..]);
    }
  }

  lemma {:induction false} SplitOfLine(line: string, rest: string)
    requires '\n' !in line
    ensures Split(line + "\n" + rest, '\n') == [line] + Split(rest, '\n')
    ensures Split(line, '\n') == [line]
  {
    if line == "" {
      assert line + "\n" + rest == "\n" + rest;
    } else {
      assert (line + "\n" + rest)[1..] == line[1..] + "\n" + rest;
      assert line == [line[0]] + line[1..] && '\n' !in line[1..];
      SplitOfLine(line[1..], rest);
    }
  }

  lemma {:induction false} SplitOfJoin(lines: Lines)
    requires lines != [] && Clean(lines)
    ensures Split(Join(lines), '\n') == lines
  {
    if |lines| == 1 {
      SplitOfLine(lines[0], "");
    } else {
      SplitOfJoin(lines[1..]);
      SplitOfLine(lines[0], Join(lines[1..]));
    }
  }

  lemma {:induction false} JoinOfAppend(a: Lines, b: Lines)
    requires b != []
    ensures Join(a + b) == Each(a) + Join(b)
  {
    if a == [] {
      assert a + b == b;
    } else {
      assert (a + b)[1..] == a[1..] + b;
      JoinOfAppend(a[1..], b);
    }
  }

  lemma {:induction false} EachOfJoin(a: Lines)
    requires a != []
    ensures Each(a) == Join(a) + "\n"
  {
    if |a| > 1 {
      EachOfJoin(a[1..]);
    }
  }

  // ----- blank lines -----

  predicate IsSpace(c: char) {
    || '\t' <= c <= '\r' || c == ' ' || c == '\U{85}' || c == '\U{A0}' || c == '\U{1680}'
    || '\U{2000}' <= c <= '\U{200A}' || c in ['\U{2028}', '\U{2029}', '\U{202F}', '\U{205F}', '\U{3000}']
  }

  /** `strings.TrimSpace(line) == ""`. */
  predicate Blank(line: string) {
    forall i | 0 <= i < |line| :: IsSpace(line[i])
  }

  function TrimEnd(lines: Lines): Lines {
    if lines != [] && Blank(lines[|lines| - 1]) then TrimEnd(lines[..|lines| - 1]) else lines
  }

  function NonBlank(lines: Lines): Lines {
    if lines == [] then [] else (if Blank(lines[0]) then [] else [lines[0]]) + NonBlank(lines[1..])
  }

  lemma {:induction false} NonBlankOfAppend(a: Lines, b: Lines)
    ensures NonBlank(a + b) == NonBlank(a) + NonBlank(b)
  {
    if a == [] {
      assert a + b == b;
    } else {
      assert (a + b)[1..] == a[1..] + b;
      NonBlankOfAppend(a[1..], b);
    }
  }

  lemma {:induction false} NonBlankTwice(a: Lines)
    ensures NonBlank(NonBlank(a)) == NonBlank(a)
    ensures forall l | l in NonBlank(a) :: l in a
  {
    if a != [] {
      NonBlankTwice(a[1..]);
      var head := if Blank(a[0]) then [] else [a[0]];
      NonBlankOfAppend(head, NonBlank(a[1..]));
      assert NonBlank(head) == head;
    }
  }

  lemma {:induction false} TrimEndFacts(a: Lines)
    ensures TrimEnd(TrimEnd(a)) == TrimEnd(a)
    ensures NonBlank(TrimEnd(a)) == NonBlank(a)
    ensures Clean(a) ==> Clean(TrimEnd(a))
  {
    if a != [] && Blank(a[|a| - 1]) {
      var front := a[..|a| - 1];
      TrimEndFacts(front);
      assert a == front + [a[|a| - 1]];
      NonBlankOfAppend(front, [a[|a| - 1]]);
      assert NonBlank([a[|a| - 1]]) == [];
    }
  }

  lemma TrimEndOfEmptyLine(a: Lines)
    ensures TrimEnd(a + [""]) == TrimEnd(a)
  {
  }

  // ----- image ids and export lines -----

  predicate IsHexDigit(c: char) {
    '0' <= c <= '9' || 'a' <= c <= 'f'
  }

  /** The lower-case UUID form. */
  predicate IsUUID(s: string) {
    |s| == 36 && forall i | 0 <= i < 36 :: if i in [8, 13, 18, 23] then s[i] == '-' else IsHexDigit(s[i])
  }

  function StripHyphens(s: string): string {
    if s == "" then "" else (if s[0] == '-' then "" else [s[0]]) + StripHyphens(s[1..])
  }

  function HexValue(c: char): Option<nat> {
    if '0' <= c <= '9' then Some(c as nat - '0' as nat)
    else if 'a' <= c <= 'f' then Some(10 + c as nat - 'a' as nat)
    else if 'A' <= c <= 'F' then Some(10 + c as nat - 'A' as nat)
    else None
  }

  function ParseHex(s: string): Option<nat> {
    if s == "" then Some(0)
    else
      var high, low := ParseHex(s[..|s| - 1]), HexValue(s[|s| - 1]);
      if high.None? || low.None? then None else Some(16 * high.value + low.value)
  }

  /** The first eight hex digits, modulo 2^32 - 1. */
  function Fsid(imageID: string): Option<nat> {
    var clean := StripHyphens(imageID);
    if |clean| < 8 then None
    else
      var v := ParseHex(clean[..8]);
      if v.None? then None else Some(v.value % 0xFFFF_FFFF)
  }

  function Decimal(n: nat): string {
    if n < 10 then [('0' as int + n) as char] else Decimal(n / 10) + [('0' as int + n % 10) as char]
  }

  function ExportLine(imageID: string, subnet: string, fsid: nat): string {
    IMAGES_PREFIX + imageID + ROOTFS + " " + subnet + "(ro,no_subtree_check,fsid=" + Decimal(fsid) + ")"
  }

  /** The position of the first occurrence. */
  function Index(s: string, sub: string): Option<nat> {
    if sub <= s then Some(0)
    else if s == "" then None
    else var i := Index(s[1..], sub); if i.None? then None else Some(i.value + 1)
  }

  lemma {:induction false} IndexBound(s: string, sub: string)
    ensures Index(s, sub).Some? ==> Index(s, sub).value + |sub| <= |s|
  {
    if !(sub <= s) && s != "" {
      IndexBound(s[1..], sub);
    }
  }

  /** The image id of a managed line, or the empty string. */
  function ExtractImageID(line: string): string {
    if !(IMAGES_PREFIX <= line) then ""
    else
      var rest := line[|IMAGES_PREFIX|..];
      var idx := Index(rest, ROOTFS);
      IndexBound(rest, ROOTFS);
      if idx.None? then ""
      else
        var candidate := rest[..idx.value];
        if Index(candidate, "/").Some? || Index(candidate, "..").Some? || !IsUUID(candidate) then "" else candidate
  }

  lemma {:induction false} IndexAfter(p: string, sub: string, t: string)
    requires sub != "" && sub[0] !in p
    ensures Index(p + sub + t, sub) == Some(|p|)
  {
    if p == "" {
      assert p + sub + t == sub + t;
    } else {
      assert (p + sub + t)[0] == p[0] && p == [p[0]] + p[1..] && sub[0] in [p[0]] <==> sub[0] == p[0];
      assert (p + sub + t)[1..] == p[1..] + sub + t;
      IndexAfter(p[1..], sub, t);
    }
  }

  lemma {:induction false} IndexAbsent(s: string, sub: string)
    requires sub != "" && sub[0] !in s
    ensures Index(s, sub) == None
  {
    if s != "" {
      assert s == [s[0]] + s[1..];
      IndexAbsent(s[1..], sub);
    }
  }

  /** The image id is read back from the line that was built for it. */
  lemma ExtractOfExportLine(imageID: string, subnet: string, fsid: nat)
    requires IsUUID(imageID)
    ensures ExtractImageID(ExportLine(imageID, subnet, fsid)) == imageID
  {
    hide IsUUID, Decimal;
    var tail := " " + subnet + "(ro,no_subtree_check,fsid=" + Decimal(fsid) + ")";
    var line := ExportLine(imageID, subnet, fsid);
    assert line == IMAGES_PREFIX + (imageID + ROOTFS + tail);
    NoSlashOrDot(imageID);
    IndexAfter(imageID, ROOTFS, tail);
    IndexAbsent(imageID, "/");
    IndexAbsent(imageID, "..");
    assert (imageID + ROOTFS + tail)[..|imageID|] == imageID;
  }

  lemma NoSlashOrDot(imageID: string)
    requires IsUUID(imageID)
    ensures '/' !in imageID && '.' !in imageID
  {
  }

  // ----- parsing and printing -----

  /** Operator lines before the first block, lines inside any block, and operator lines after the first block. */
  datatype Doc = Doc(before: Lines, managed: Lines, after: Lines)

  /** Anchors may be missing, repeated or stray: a begin anchor opens a block, an end anchor closes it. */
  function Scan(lines: Lines, inBlock: bool, blockFound: bool): Doc {
    if lines == [] then Doc([], [], [])
    else if lines[0] == BEGIN_ANCHOR then Scan(lines[1..], true, true)
    else if lines[0] == END_ANCHOR then Scan(lines[1..], false, blockFound)
    else
      var d := Scan(lines[1..], inBlock, blockFound);
      if inBlock then d.(managed := [lines[0]] + d.managed)
      else if !blockFound then d.(before := [lines[0]] + d.before)
      else d.(after := [lines[0]] + d.after)
  }

  function Parse(text: string): Doc {
    Scan(Split(text, '\n'), false, false)
  }

  /** The lines of other images, in order. */
  function Without(lines: Lines, images: set<string>): Lines {
    if lines == [] then []
    else (if ExtractImageID(lines[0]) in images then [] else [lines[0]]) + Without(lines[1..], images)
  }

  function Print(d: Doc): Lines {
    TrimEnd(d.before) + ["", BEGIN_ANCHOR] + d.managed + [END_ANCHOR] + NonBlank(d.after) + [""]
  }

  /** The merge as a function: an image id without a file system id is an error. */
  function Merge(text: string, imageID: string, subnet: string): Option<string> {
    var fsid := Fsid(imageID);
    if fsid.None? then None
    else
      var d := Parse(text);
      Some(Join(Print(d.(managed := Without(d.managed, {imageID}) + [ExportLine(imageID, subnet, fsid.value)]))))
  }

  // ----- the program -----

  /** `buildNFSExportsContent`: one pass over the lines and a string builder. */
  method BuildExportsContent(existing: string, imageID: string, subnet: string) returns (content: Option<string>)
    ensures content == Merge(existing, imageID, subnet)
  {
    var fsid := Fsid(imageID);
    if fsid.None? {
      return None;
    }
    var newLine := ExportLine(imageID, subnet, fsid.value);
    var d := ScanLines(Split(existing, '\n'), imageID);
    var managed := d.managed + [newLine];
    var before := d.before;
    while |before| > 0 && Blank(before[|before| - 1])
      invariant TrimEnd(before) == TrimEnd(d.before)
    {
      before := before[..|before| - 1];
    }
    var text := WriteLines(before, managed, d.after);
    return Some(text);
  }

  lemma ScanEnd(imageID: string)
    ensures forall b, f :: Scan([], b, f) == Doc([], [], [])
    ensures Without([], {imageID}) == []
  {
  }

  lemma ScanUnfold(lines: Lines, i: nat, inBlock: bool, blockFound: bool, imageID: string)
    requires i < |lines|
    ensures var line, spec := lines[i], Scan(lines[i..], inBlock, blockFound);
      if line == BEGIN_ANCHOR then spec == Scan(lines[i + 1..], true, true)
      else if line == END_ANCHOR then spec == Scan(lines[i + 1..], false, blockFound)
      else
        var rest := Scan(lines[i + 1..], inBlock, blockFound);
        if inBlock then
          && spec.before == rest.before && spec.after == rest.after
          && Without(spec.managed, {imageID})
             == (if ExtractImageID(line) == imageID then [] else [line]) + Without(rest.managed, {imageID})
        else if !blockFound then spec == rest.(before := [line] + rest.before)
        else spec == rest.(after := [line] + rest.after)
  {
  }

  method ScanLines(lines: Lines, imageID: string) returns (d: Doc)
    ensures var spec := Scan(lines, false, false); d == spec.(managed := Without(spec.managed, {imageID}))
  {
    hide ExtractImageID, Scan, Without;
    ScanEnd(imageID);
    var before, managed, after: Lines := [], [], [];
    var inBlock, blockFound := false, false;
    for i := 0 to |lines|
      invariant var spec, rest := Scan(lines, false, false), Scan(lines[i..], inBlock, blockFound);
        && spec.before == before + rest.before
        && Without(spec.managed, {imageID}) == managed + Without(rest.managed, {imageID})
        && spec.after == after + rest.after
      invariant inBlock ==> blockFound
    {
      var line := lines[i];
      ScanUnfold(lines, i, inBlock, blockFound, imageID);
      if line == BEGIN_ANCHOR {
        inBlock, blockFound := true, true;
      } else if line == END_ANCHOR {
        inBlock := false;
      } else if inBlock {
        if ExtractImageID(line) != imageID {
          managed := managed + [line];
        }
      } else if !blockFound {
        before := before + [line];
      } else {
        after := after + [line];
      }
    }
    assert lines[|lines|..] == [];
    d := Doc(before, managed, after);
  }

  method WriteLines(before: Lines, managed: Lines, after: Lines) returns (text: string)
    requires TrimEnd(before) == before
    ensures text == Join(Print(Doc(before, managed, after)))
  {
    text := "";
    if |before| > 0 {
      EachOfJoin(before);
      text := Join(before) + "\n";
    }
    text := text + ("\n" + BEGIN_ANCHOR + "\n");
    var block := WriteEach(managed);
    text := text + block + (END_ANCHOR + "\n");
    var rest := WriteNonBlank(after);
    text := text + rest;
    PrintedText(before, BEGIN_ANCHOR, managed, END_ANCHOR, NonBlank(after));
  }

  method WriteEach(lines: Lines) returns (text: string)
    ensures text == Each(lines)
  {
    text := "";
    for i := 0 to |lines|
      invariant text + Each(lines[i..]) == Each(lines)
    {
      assert lines[i..][1..] == lines[i + 1..];
      text := text + lines[i] + "\n";
    }
  }

  method WriteNonBlank(lines: Lines) returns (text: string)
    ensures text == Each(NonBlank(lines))
  {
    text := "";
    for i := 0 to |lines|
      invariant text + Each(NonBlank(lines[i..])) == Each(NonBlank(lines))
    {
      assert lines[i..][1..] == lines[i + 1..];
      if !Blank(lines[i]) {
        assert NonBlank(lines[i..])[1..] == NonBlank(lines[i + 1..]);
        text := text + lines[i] + "\n";
      } else {
        assert NonBlank(lines[i..]) == NonBlank(lines[i + 1..]);
      }
    }
  }

  lemma EachOfFew(a: string, b: string)
    ensures Each([a]) == a + "\n" && Each([a, b]) == a + "\n" + b + "\n" && Join([a]) == a
  {
    assert [a, b][1..] == [b] && Each([b]) == b + "\n";
  }

  lemma {:induction false} EachOfAppend(a: Lines, b: Lines)
    ensures Each(a + b) == Each(a) + Each(b)
  {
    if a == [] {
      assert a + b == b;
    } else {
      assert (a + b)[1..] == a[1..] + b;
      EachOfAppend(a[1..], b);
    }
  }

  /** The printed lines, joined, are what the string builder writes. */
  lemma PrintedText(before: Lines, begin: string, managed: Lines, end: string, after: Lines)
    ensures Join(before + ["", begin] + managed + [end] + after + [""])
            == Each(before) + ("\n" + begin + "\n") + Each(managed) + (end + "\n") + Each(after)
  {
    hide Join, Each;
    EachOfFew("", begin);
    EachOfFew(end, "");
    EachOfFew("", "");
    EachOfAppend(before, ["", begin]);
    EachOfAppend(before + ["", begin], managed);
    EachOfAppend(before + ["", begin] + managed, [end]);
    EachOfAppend(before + ["", begin] + managed + [end], after);
    JoinOfAppend(before + ["", begin] + managed + [end] + after, [""]);
    assert "" + "\n" + begin + "\n" == "\n" + begin + "\n";
  }

  // ----- parsing what was printed -----

  ghost predicate AnchorFree(lines: Lines) {
    BEGIN_ANCHOR !in lines && END_ANCHOR !in lines
  }

  /** Anchor-free lines go where the state says. */
  lemma {:induction false} ScanAnchorFree(a: Lines, b: Lines, inBlock: bool, blockFound: bool)
    requires AnchorFree(a)
    ensures var d := Scan(b, inBlock, blockFound);
      Scan(a + b, inBlock, blockFound) ==
      if inBlock then d.(managed := a + d.managed)
      else if !blockFound then d.(before := a + d.before)
      else d.(after := a + d.after)
  {
    if a == [] {
      assert a + b == b;
    } else {
      assert (a + b)[1..] == a[1..] + b && a == [a[0]] + a[1..];
      ScanAnchorFree(a[1..], b, inBlock, blockFound);
    }
  }

  lemma {:induction false} ScanIsAnchorFree(lines: Lines, inBlock: bool, blockFound: bool)
    ensures var d := Scan(lines, inBlock, blockFound); AnchorFree(d.before) && AnchorFree(d.managed) && AnchorFree(d.after)
    ensures var d := Scan(lines, inBlock, blockFound); Clean(lines) ==> Clean(d.before) && Clean(d.managed) && Clean(d.after)
  {
    if lines != [] {
      ScanIsAnchorFree(lines[1..], lines[0] == BEGIN_ANCHOR || (lines[0] != END_ANCHOR && inBlock), lines[0] == BEGIN_ANCHOR || blockFound);
    }
  }

  lemma ScanAnchor(tail: Lines, inBlock: bool, blockFound: bool)
    ensures Scan([BEGIN_ANCHOR] + tail, inBlock, blockFound) == Scan(tail, true, true)
    ensures Scan([END_ANCHOR] + tail, inBlock, blockFound) == Scan(tail, false, blockFound)
    ensures Scan([], inBlock, blockFound) == Doc([], [], [])
  {
  }

  lemma ScanSections(before: Lines, managed: Lines, tail: Lines)
    requires AnchorFree(before) && AnchorFree(managed) && AnchorFree(tail)
    ensures Scan(before + ([BEGIN_ANCHOR] + (managed + ([END_ANCHOR] + tail))), false, false) == Doc(before, managed, tail)
  {
    hide Scan, AnchorFree;
    ScanAnchorFree(tail, [], false, true);
    assert tail + [] == tail;
    ScanAnchor(tail, true, true);
    ScanAnchorFree(managed, [END_ANCHOR] + tail, true, true);
    ScanAnchor(managed + ([END_ANCHOR] + tail), false, false);
    ScanAnchorFree(before, [BEGIN_ANCHOR] + (managed + ([END_ANCHOR] + tail)), false, false);
    ScanAnchor([], false, true);
  }

  lemma AnchorFreeAppend(a: Lines)
    requires AnchorFree(a)
    ensures AnchorFree(a + [""])
  {
  }

  lemma Regroup(before: Lines, begin: string, managed: Lines, end: string, after: Lines)
    ensures before + ["", begin] + managed + [end] + after + [""]
            == (before + [""]) + ([begin] + (managed + ([end] + (after + [""]))))
  {
  }

  /** Printing and parsing again: the blank line before the block and the empty line after the last newline are
      the only lines that appear. */
  lemma ScanOfPrint(before: Lines, managed: Lines, after: Lines)
    requires AnchorFree(before) && AnchorFree(managed) && AnchorFree(after)
    ensures Scan(before + ["", BEGIN_ANCHOR] + managed + [END_ANCHOR] + after + [""], false, false)
            == Doc(before + [""], managed, after + [""])
  {
    AnchorFreeAppend(before);
    AnchorFreeAppend(after);
    ScanSections(before + [""], managed, after + [""]);
    Regroup(before, BEGIN_ANCHOR, managed, END_ANCHOR, after);
  }

  // ----- the laws of the merge -----

  lemma {:induction false} DecimalIsClean(n: nat)
    ensures '\n' !in Decimal(n)
  {
    if n >= 10 {
      DecimalIsClean(n / 10);
    }
  }

  lemma ExportLineFacts(imageID: string, subnet: string, fsid: nat)
    requires '\n' !in imageID && '\n' !in subnet
    ensures var line := ExportLine(imageID, subnet, fsid); '\n' !in line && AnchorFree([line])
  {
    DecimalIsClean(fsid);
    AnchorFacts();
    var line := ExportLine(imageID, subnet, fsid);
    assert line[0] == '/';
  }

  lemma AnchorFacts()
    ensures BEGIN_ANCHOR[0] == END_ANCHOR[0] == '#'
    ensures '\n' !in BEGIN_ANCHOR && '\n' !in END_ANCHOR
  {
  }

  lemma {:induction false} WithoutFacts(lines: Lines, images: set<string>)
    ensures forall l :: l in Without(lines, images) <==> l in lines && ExtractImageID(l) !in images
    ensures AnchorFree(lines) ==> AnchorFree(Without(lines, images))
    ensures Clean(lines) ==> Clean(Without(lines, images))
  {
    hide ExtractImageID;
    if lines != [] {
      WithoutFacts(lines[1..], images);
      assert lines == [lines[0]] + lines[1..];
    }
  }

  lemma CleanAndFree(a: Lines)
    requires AnchorFree(a) && Clean(a)
    ensures AnchorFree(TrimEnd(a)) && Clean(TrimEnd(a)) && AnchorFree(NonBlank(a)) && Clean(NonBlank(a))
  {
  }

  /** A merged text parses to the old document with the image's lines replaced by one new line. */
  lemma ParseOfMerge(text: string, imageID: string, subnet: string)
    requires Fsid(imageID).Some? && '\n' !in imageID && '\n' !in subnet
    ensures var d := Parse(text);
      Parse(Merge(text, imageID, subnet).value) ==
      Doc(TrimEnd(d.before) + [""],
          Without(d.managed, {imageID}) + [ExportLine(imageID, subnet, Fsid(imageID).value)],
          NonBlank(d.after) + [""])
  {
    hide Scan, Without, Fsid, ExportLine, TrimEnd, NonBlank, AnchorFree;
    var d, line := Parse(text), ExportLine(imageID, subnet, Fsid(imageID).value);
    SplitIsClean(text);
    ScanIsAnchorFree(Split(text, '\n'), false, false);
    ExportLineFacts(imageID, subnet, Fsid(imageID).value);
    WithoutFacts(d.managed, {imageID});
    CleanAndFree(d.before);
    CleanAndFree(d.after);
    FreeAppend(Without(d.managed, {imageID}), [line]);
    var managed := Without(d.managed, {imageID}) + [line];
    ScanOfPrint(TrimEnd(d.before), managed, NonBlank(d.after));
    PrintIsClean(TrimEnd(d.before), managed, NonBlank(d.after));
    SplitOfJoin(Print(d.(managed := managed)));
  }

  lemma FreeAppend(a: Lines, b: Lines)
    requires AnchorFree(a) && AnchorFree(b)
    ensures AnchorFree(a + b)
  {
  }

  lemma PrintIsClean(before: Lines, managed: Lines, after: Lines)
    requires Clean(before) && Clean(managed) && Clean(after)
    ensures Clean(before + ["", BEGIN_ANCHOR] + managed + [END_ANCHOR] + after + [""])
  {
    AnchorFacts();
    CleanSections(before, BEGIN_ANCHOR, managed, END_ANCHOR, after);
  }

  lemma CleanSections(before: Lines, begin: string, managed: Lines, end: string, after: Lines)
    requires Clean(before) && Clean(managed) && Clean(after) && '\n' !in begin && '\n' !in end
    ensures Clean(before + ["", begin] + managed + [end] + after + [""])
  {
  }

  lemma {:induction false} WithoutOfAppend(a: Lines, b: Lines, images: set<string>)
    ensures Without(a + b, images) == Without(a, images) + Without(b, images)
  {
    hide ExtractImageID;
    if a == [] {
      assert a + b == b;
    } else {
      assert (a + b)[1..] == a[1..] + b;
      WithoutOfAppend(a[1..], b, images);
    }
  }

  lemma {:induction false} WithoutTwice(a: Lines, p: set<string>, q: set<string>)
    ensures Without(Without(a, p), q) == Without(a, p + q)
  {
    hide ExtractImageID;
    if a != [] {
      WithoutTwice(a[1..], p, q);
      var head := if ExtractImageID(a[0]) in p then [] else [a[0]];
      WithoutOfAppend(head, Without(a[1..], p), q);
    }
  }

  lemma UUIDFacts(imageID: string)
    requires IsUUID(imageID)
    ensures '\n' !in imageID && Fsid(imageID).Some?
  {
    UUIDHead(imageID);
    var clean := StripHyphens(imageID);
    ParseHexRange(clean[..8]);
  }

  lemma {:induction false} StripPrefix(s: string, n: nat)
    requires n <= |s| && '-' !in s[..n]
    ensures s[..n] <= StripHyphens(s)
  {
    if n > 0 {
      assert s[..n] == [s[0]] + s[1..][..n - 1];
      StripPrefix(s[1..], n - 1);
    }
  }

  lemma UUIDHead(imageID: string)
    requires IsUUID(imageID)
    ensures '\n' !in imageID
    ensures |StripHyphens(imageID)| >= 8 && StripHyphens(imageID)[..8] == imageID[..8]
    ensures forall i | 0 <= i < 8 :: IsHexDigit(imageID[..8][i])
  {
    StripPrefix(imageID, 8);
  }

  // ----- file system ids -----

  function Pow16(n: nat): (p: nat)
    ensures p > 0
  {
    if n == 0 then 1 else 16 * Pow16(n - 1)
  }

  ghost predicate AllHex(s: string) {
    forall i | 0 <= i < |s| :: IsHexDigit(s[i])
  }

  lemma {:induction false} ParseHexRange(s: string)
    requires AllHex(s)
    ensures ParseHex(s).Some? && ParseHex(s).value < Pow16(|s|)
    ensures (forall i | 0 <= i < |s| :: s[i] == '0') ==> ParseHex(s).value == 0
    ensures (forall i | 0 <= i < |s| :: s[i] == 'f') ==> ParseHex(s).value == Pow16(|s|) - 1
  {
    if s != "" {
      ParseHexRange(s[..|s| - 1]);
    }
  }

  lemma SameDigits(h: nat, l: nat, h': nat, l': nat)
    requires 16 * h + l == 16 * h' + l' && l < 16 && l' < 16
    ensures h == h' && l == l'
  {
  }

  lemma {:induction false} ParseHexIsInjective(s: string, t: string)
    requires AllHex(s) && AllHex(t) && |s| == |t| && ParseHex(s) == ParseHex(t)
    ensures s == t
  {
    if s != "" {
      var a, b := s[..|s| - 1], t[..|t| - 1];
      var x, y := s[|s| - 1], t[|t| - 1];
      ParseHexRange(a);
      ParseHexRange(b);
      SameDigits(ParseHex(a).value, HexValue(x).value, ParseHex(b).value, HexValue(y).value);
      ParseHexIsInjective(a, b);
      assert x == y && s == a + [x] && t == b + [y];
    }
  }

  /** Two images get the same file system id exactly when their first eight digits agree, or are all zero for the one
      and all f for the other. */
  lemma FsidsAgreeIff(a: string, b: string)
    requires IsUUID(a) && IsUUID(b)
    ensures Fsid(a).Some? && Fsid(b).Some?
    ensures Fsid(a) == Fsid(b) <==>
            a[..8] == b[..8] || {a[..8], b[..8]} == {"00000000", "ffffffff"}
  {
    hide ParseHex, StripHyphens;
    UUIDHead(a);
    UUIDHead(b);
    var x, y := a[..8], b[..8];
    ParseHexRange(x);
    ParseHexRange(y);
    ParseHexRange("00000000");
    ParseHexRange("ffffffff");
    assert Pow16(8) == 0x1_0000_0000 by {
      assert Pow16(4) == 65536;
    }
    if Fsid(a) == Fsid(b) && x != y {
      ParseHexCase(x, y);
    }
  }

  lemma ParseHexCase(x: string, y: string)
    requires |x| == |y| == 8 && AllHex(x) && AllHex(y) && x != y
    requires ParseHex(x).Some? && ParseHex(y).Some?
    requires ParseHex(x).value <= 0xFFFF_FFFF && ParseHex(y).value <= 0xFFFF_FFFF
    requires ParseHex("00000000") == Some(0) && ParseHex("ffffffff") == Some(0xFFFF_FFFF)
    requires ParseHex(x).value % 0xFFFF_FFFF == ParseHex(y).value % 0xFFFF_FFFF
    ensures {x, y} == {"00000000", "ffffffff"}
  {
    hide ParseHex;
    if ParseHex(x) == ParseHex(y) {
      ParseHexIsInjective(x, y);
    } else if ParseHex(x) == Some(0) {
      ParseHexIsInjective(x, "00000000");
      ParseHexIsInjective(y, "ffffffff");
    } else {
      ParseHexIsInjective(x, "ffffffff");
      ParseHexIsInjective(y, "00000000");
    }
  }

  /** An id that is not a UUID is never read back from a line. */
  lemma OnlyUUIDsAreExtracted(imageID: string, line: string)
    requires Fsid(imageID).Some? && !IsUUID(imageID)
    ensures ExtractImageID(line) != imageID
  {
  }

  lemma {:induction false} WithoutNothing(lines: Lines, imageID: string)
    requires forall l :: ExtractImageID(l) != imageID
    ensures Without(lines, {imageID}) == lines
  {
    if lines != [] {
      WithoutNothing(lines[1..], imageID);
    }
  }

  /** Merging the same export twice gives the same text as merging it once, on every input text, exactly when the
      image id is a UUID; for any other id that has a file system id, a second line is added. */
  lemma IdempotentIffUUID(text: string, imageID: string, subnet: string)
    requires Fsid(imageID).Some? && '\n' !in imageID && '\n' !in subnet
    ensures var once := Merge(text, imageID, subnet).value;
            Merge(once, imageID, subnet) == Some(once) <==> IsUUID(imageID)
  {
    var once := Merge(text, imageID, subnet).value;
    if IsUUID(imageID) {
      MergeTwice(text, imageID, subnet);
    } else {
      ParseOfMerge(text, imageID, subnet);
      ParseOfMerge(once, imageID, subnet);
      forall l
        ensures ExtractImageID(l) != imageID
      {
        OnlyUUIDsAreExtracted(imageID, l);
      }
      WithoutNothing(Parse(once).managed, imageID);
    }
  }

  lemma MergeTwice(text: string, imageID: string, subnet: string)
    requires Fsid(imageID).Some? && '\n' !in subnet && IsUUID(imageID)
    ensures var once := Merge(text, imageID, subnet).value; Merge(once, imageID, subnet) == Some(once)
  {
    hide Scan, Without, Fsid, ExportLine, TrimEnd, NonBlank, ExtractImageID, IsUUID;
    UUIDFacts(imageID);
    var d, line := Parse(text), ExportLine(imageID, subnet, Fsid(imageID).value);
    ParseOfMerge(text, imageID, subnet);
    TrimEndOfEmptyLine(TrimEnd(d.before));
    TrimEndFacts(d.before);
    NonBlankOfAppend(NonBlank(d.after), [""]);
    NonBlankTwice(d.after);
    NonBlankOfEmptyLine();
    var kept := Without(d.managed, {imageID});
    WithoutOfAppend(kept, [line], {imageID});
    WithoutTwice(d.managed, {imageID}, {imageID});
    assert {imageID} + {imageID} == {imageID};
    ExtractOfExportLine(imageID, subnet, Fsid(imageID).value);
    WithoutOne(line, {imageID});
    assert kept + [] == kept && NonBlank(d.after) + [] == NonBlank(d.after);
  }

  lemma NonBlankOfEmptyLine()
    ensures NonBlank([""]) == []
  {
  }

  lemma WithoutOne(line: string, images: set<string>)
    ensures Without([line], images) == if ExtractImageID(line) in images then [] else [line]
  {
  }

  /** The operator's lines. */
  function Outside(text: string): Lines {
    var d := Parse(text); NonBlank(d.before) + NonBlank(d.after)
  }

  /** The merge never changes the sequence of non-blank lines outside the managed block. */
  lemma OperatorLinesKept(text: string, imageID: string, subnet: string)
    requires Fsid(imageID).Some? && '\n' !in imageID && '\n' !in subnet
    ensures Outside(Merge(text, imageID, subnet).value) == Outside(text)
  {
    hide Scan, Without, Fsid, ExportLine, TrimEnd, NonBlank;
    var d := Parse(text);
    ParseOfMerge(text, imageID, subnet);
    TrimEndFacts(d.before);
    NonBlankOfAppend(TrimEnd(d.before), [""]);
    NonBlankOfAppend(NonBlank(d.after), [""]);
    NonBlankTwice(d.after);
    NonBlankOfEmptyLine();
    assert NonBlank(d.before) + [] == NonBlank(d.before) && NonBlank(d.after) + [] == NonBlank(d.after);
  }

  // ----- sequences of merges -----

  /** A merge request that the verb lets through: a UUID and a subnet without line breaks. */
  datatype Request = Request(imageID: string, subnet: string) {
    predicate Valid() {
      IsUUID(imageID) && '\n' !in subnet
    }
  }

  function MergeAll(text: string, requests: seq<Request>): string {
    if requests == [] then text
    else
      var last := requests[|requests| - 1];
      var merged := Merge(MergeAll(text, requests[..|requests| - 1]), last.imageID, last.subnet);
      if merged.None? then text else merged.value
  }

  /** The latest subnet of every image. */
  function LatestSubnets(requests: seq<Request>): map<string, string> {
    if requests == [] then map[]
    else LatestSubnets(requests[..|requests| - 1])[requests[|requests| - 1].imageID := requests[|requests| - 1].subnet]
  }

  /** The managed lines of one image. */
  function LinesOf(lines: Lines, imageID: string): Lines {
    if lines == [] then [] else (if ExtractImageID(lines[0]) == imageID then [lines[0]] else []) + LinesOf(lines[1..], imageID)
  }

  lemma {:induction false} LinesOfWithout(a: Lines, gone: string, imageID: string)
    ensures LinesOf(Without(a, {gone}), imageID) == if imageID == gone then [] else LinesOf(a, imageID)
  {
    hide ExtractImageID;
    if a != [] {
      LinesOfWithout(a[1..], gone, imageID);
      if ExtractImageID(a[0]) != gone {
        assert Without(a, {gone})[1..] == Without(a[1..], {gone});
      } else {
        assert Without(a, {gone}) == Without(a[1..], {gone});
      }
    }
  }

  lemma {:induction false} LinesOfAppend(a: Lines, line: string, imageID: string)
    ensures LinesOf(a + [line], imageID) == LinesOf(a, imageID) + if ExtractImageID(line) == imageID then [line] else []
  {
    hide ExtractImageID;
    if a == [] {
      assert a + [line] == [line];
    } else {
      var b := a + [line];
      assert b[0] == a[0] && b[1..] == a[1..] + [line];
      LinesOfAppend(a[1..], line, imageID);
      var head := if ExtractImageID(a[0]) == imageID then [a[0]] else [];
      assert LinesOf(b, imageID) == head + LinesOf(a[1..] + [line], imageID) && LinesOf(a, imageID) == head + LinesOf(a[1..], imageID);
    }
  }

  /** Over any sequence of merges from any text, the managed block is a last-write-wins map: every merged image has
      exactly one line, built from its latest subnet, and the lines of all other images survive in order. */
  lemma {:induction false} LastWriteWins(text: string, requests: seq<Request>)
    requires forall r | r in requests :: r.Valid()
    ensures var latest, managed := LatestSubnets(requests), Parse(MergeAll(text, requests)).managed;
      && (forall i | i in latest :: IsUUID(i) && LinesOf(managed, i) == [ExportLine(i, latest[i], FsidOf(i))])
      && Without(managed, latest.Keys) == Without(Parse(text).managed, latest.Keys)
    ensures Outside(MergeAll(text, requests)) == Outside(text)
  {
    hide ExtractImageID, Scan, Fsid, ExportLine, Outside, IsUUID, Without, LinesOf;
    if requests != [] {
      var front, r := requests[..|requests| - 1], requests[|requests| - 1];
      assert r in requests && r.Valid();
      LastWriteWins(text, front);
      var mid, before := MergeAll(text, front), LatestSubnets(front);
      UUIDFacts(r.imageID);
      ParseOfMerge(mid, r.imageID, r.subnet);
      OperatorLinesKept(mid, r.imageID, r.subnet);
      var line, kept := ExportLine(r.imageID, r.subnet, FsidOf(r.imageID)), Without(Parse(mid).managed, {r.imageID});
      ExtractOfExportLine(r.imageID, r.subnet, FsidOf(r.imageID));
      forall i | i in LatestSubnets(requests)
        ensures LinesOf(kept + [line], i) == [ExportLine(i, LatestSubnets(requests)[i], FsidOf(i))]
      {
        LinesOfAppend(kept, line, i);
        LinesOfWithout(Parse(mid).managed, r.imageID, i);
      }
      OthersKept(text, Parse(mid).managed, before.Keys, r.imageID, line);
      assert LatestSubnets(requests).Keys == before.Keys + {r.imageID};
    }
  }

  function FsidOf(imageID: string): nat {
    if Fsid(imageID).Some? then Fsid(imageID).value else 0
  }

  lemma OthersKept(text: string, managed: Lines, images: set<string>, imageID: string, line: string)
    requires Without(managed, images) == Without(Parse(text).managed, images)
    requires ExtractImageID(line) == imageID
    ensures Without(Without(managed, {imageID}) + [line], images + {imageID}) == Without(Parse(text).managed, images + {imageID})
  {
    hide ExtractImageID, Scan, Without;
    var all, start := images + {imageID}, Parse(text).managed;
    WithoutOfAppend(Without(managed, {imageID}), [line], all);
    WithoutOne(line, all);
    WithoutTwice(managed, {imageID}, all);
    WithoutTwice(managed, images, all);
    WithoutTwice(start, images, all);
    assert {imageID} + all == all && images + all == all;
  }

  // ----- the same in terms of characters -----

  /** The line has a printing ASCII character, or a character of the Latin and the following alphabets. */
  predicate Visible(line: string) {
    exists i | 0 <= i < |line| :: '!' <= line[i] <= '~' || '\U{A1}' <= line[i] <= '\U{167F}'
  }

  function VisibleLines(lines: Lines): Lines {
    if lines == [] then [] else (if Visible(lines[0]) then [lines[0]] else []) + VisibleLines(lines[1..])
  }

  lemma {:induction false} VisibleLinesOfAppend(a: Lines, b: Lines)
    ensures VisibleLines(a + b) == VisibleLines(a) + VisibleLines(b)
  {
    if a == [] {
      assert a + b == b;
    } else {
      assert (a + b)[1..] == a[1..] + b;
      VisibleLinesOfAppend(a[1..], b);
    }
  }

  lemma VisibleIsNotBlank(line: string)
    requires Visible(line)
    ensures !Blank(line)
  {
    var i :| 0 <= i < |line| && ('!' <= line[i] <= '~' || '\U{A1}' <= line[i] <= '\U{167F}');
    assert !IsSpace(line[i]);
  }

  lemma {:induction false} VisibleLinesStay(a: Lines)
    ensures VisibleLines(TrimEnd(a)) == VisibleLines(a)
    ensures VisibleLines(NonBlank(a)) == VisibleLines(a)
    decreases |a|
  {
    hide Visible, Blank;
    if a != [] {
      var front, last := a[..|a| - 1], a[|a| - 1];
      if Visible(a[0]) {
        VisibleIsNotBlank(a[0]);
      }
      if Visible(last) {
        VisibleIsNotBlank(last);
      }
      VisibleLinesStay(a[1..]);
      VisibleLinesStay(front);
      assert a == front + [last];
      VisibleLinesOfAppend(front, [last]);
      var head := if Blank(a[0]) then [] else [a[0]];
      VisibleLinesOfAppend(head, NonBlank(a[1..]));
    }
  }

  /** The visible lines of a text that lie outside the anchored block. */
  function OperatorLines(text: string): Lines {
    VisibleLines(Parse(text).before) + VisibleLines(Parse(text).after)
  }

  /** A merge keeps every visible line outside the block, and their order. */
  lemma VisibleLinesKept(text: string, imageID: string, subnet: string)
    requires Fsid(imageID).Some? && '\n' !in imageID && '\n' !in subnet
    ensures OperatorLines(Merge(text, imageID, subnet).value) == OperatorLines(text)
    ensures forall line, i | 0 <= i < |line| && '!' <= line[i] <= '~' ::
              && (line in Parse(text).before ==> line in Parse(Merge(text, imageID, subnet).value).before)
              && (line in Parse(text).after ==> line in Parse(Merge(text, imageID, subnet).value).after)
  {
    hide Scan, Without, Fsid, ExportLine, TrimEnd, NonBlank, VisibleLines;
    var d := Parse(text);
    VisibleMembers(d.before);
    VisibleMembers(d.after);
    VisibleMembers(TrimEnd(d.before));
    VisibleMembers(NonBlank(d.after));
    ParseOfMerge(text, imageID, subnet);
    VisibleLinesStay(d.before);
    VisibleLinesStay(d.after);
    VisibleLinesOfAppend(TrimEnd(d.before), [""]);
    VisibleLinesOfAppend(NonBlank(d.after), [""]);
    NoVisibleLine();
  }

  lemma {:induction false} VisibleMembers(lines: Lines)
    ensures forall line :: line in VisibleLines(lines) <==> line in lines && Visible(line)
  {
    hide Visible;
    if lines != [] {
      VisibleMembers(lines[1..]);
      assert lines == [lines[0]] + lines[1..];
    }
  }

  lemma NoVisibleLine()
    ensures VisibleLines([""]) == []
  {
  }

  /** A line of white space outside the block does not survive, except for the last, empty, line of the text and the empty
      line in front of the block. */
  lemma WhiteSpaceGoes(text: string, imageID: string, subnet: string, line: string)
    requires Fsid(imageID).Some? && '\n' !in imageID && '\n' !in subnet
    requires line != ""
    requires forall i | 0 <= i < |line| ::
               || line[i] in [' ', '\t', '\r', 11 as char, 12 as char, '\U{85}', '\U{A0}', '\U{1680}']
               || line[i] in ['\U{2028}', '\U{2029}', '\U{202F}', '\U{205F}', '\U{3000}'] || '\U{2000}' <= line[i] <= '\U{200A}'
    ensures var d := Parse(Merge(text, imageID, subnet).value);
      && line !in d.after
      && (d.before != [] ==> d.before[|d.before| - 1] == "" && (|d.before| > 1 ==> d.before[|d.before| - 2] != line))
  {
    hide Scan, Without, Fsid, ExportLine;
    var d := Parse(text);
    ParseOfMerge(text, imageID, subnet);
    assert Blank(line);
    NonBlankHasNone(d.after, line);
    TrimEndEnds(d.before, line);
  }

  lemma {:induction false} NonBlankHasNone(a: Lines, line: string)
    requires Blank(line)
    ensures line !in NonBlank(a)
  {
    if a != [] {
      NonBlankHasNone(a[1..], line);
    }
  }

  lemma {:induction false} TrimEndEnds(a: Lines, line: string)
    requires Blank(line)
    ensures TrimEnd(a) != [] ==> TrimEnd(a)[|TrimEnd(a)| - 1] != line
  {
    if a != [] && Blank(a[|a| - 1]) {
      TrimEndEnds(a[..|a| - 1], line);
    }
  }

  /** Over any sequence of merges the operator's lines stay. */
  lemma {:induction false} VisibleLinesKeptByAll(text: string, requests: seq<Request>)
    requires forall r | r in requests :: r.Valid()
    ensures OperatorLines(MergeAll(text, requests)) == OperatorLines(text)
  {
    hide IsUUID, Fsid, OperatorLines;
    if requests != [] {
      var front, r := requests[..|requests| - 1], requests[|requests| - 1];
      assert r in requests && r.Valid();
      VisibleLinesKeptByAll(text, front);
      UUIDFacts(r.imageID);
      VisibleLinesKept(MergeAll(text, front), r.imageID, r.subnet);
    }
  }

  // ----- the image id, the file system id and the export line -----

  /** The lower-case UUID form, character by character. */
  predicate LooksLikeUUID(s: string) {
    && |s| == 36 && s[8] == '-' && s[13] == '-' && s[18] == '-' && s[23] == '-'
    && forall i | 0 <= i < 36 && i != 8 && i != 13 && i != 18 && i != 23 :: '0' <= s[i] <= '9' || 'a' <= s[i] <= 'f'
  }

  lemma UUIDMeans(s: string)
    ensures LooksLikeUUID(s) <==> IsUUID(s)
  {
    if IsUUID(s) {
      assert forall i | 0 <= i < 36 :: if i in [8, 13, 18, 23] then s[i] == '-' else IsHexDigit(s[i]);
    }
  }

  function DigitValue(c: char): int {
    if c <= '9' then c as int - 48 else c as int - 87
  }

  /** The file system id is the number that the first eight digits spell, modulo 4294967295. */
  lemma FsidMeans(id: string)
    requires LooksLikeUUID(id)
    ensures Fsid(id) == Some((((((((DigitValue(id[0]) * 16 + DigitValue(id[1])) * 16 + DigitValue(id[2])) * 16 + DigitValue(id[3])) * 16
                                 + DigitValue(id[4])) * 16 + DigitValue(id[5])) * 16 + DigitValue(id[6])) * 16 + DigitValue(id[7])) % 4294967295)
  {
    UUIDHead(id);
    hide StripHyphens, ParseHex, AllHex;
    assert AllHex(id[..8]) by {
      assert forall i | 0 <= i < 8 :: IsHexDigit(id[..8][i]);
    }
    EightDigits(id);
  }

  lemma EightDigits(id: string)
    requires |id| >= 8 && AllHex(id[..8])
    ensures ParseHex(id[..8]) == Some(((((((DigitValue(id[0]) * 16 + DigitValue(id[1])) * 16 + DigitValue(id[2])) * 16 + DigitValue(id[3])) * 16
                                         + DigitValue(id[4])) * 16 + DigitValue(id[5])) * 16 + DigitValue(id[6])) * 16 + DigitValue(id[7]))
  {
    ParseHexEmpty();
    hide ParseHex, AllHex, DigitValue;
    ParseHexStep(id, 8);
    ParseHexStep(id, 7);
    ParseHexStep(id, 6);
    ParseHexStep(id, 5);
    ParseHexStep(id, 4);
    ParseHexStep(id, 3);
    ParseHexStep(id, 2);
    ParseHexStep(id, 1);
    assert id[..0] == "";
  }

  /** The example of the package comment. */
  lemma FsidOfTheExample(id: string)
    requires LooksLikeUUID(id) && id[..8] == "6b875781"
    ensures Fsid(id) == Some(1804031873)
  {
    FsidMeans(id);
    assert forall i | 0 <= i < 8 :: id[i] == id[..8][i];
  }

  lemma ParseHexEmpty()
    ensures ParseHex("") == Some(0)
  {
  }

  lemma ParseHexStep(id: string, n: nat)
    requires 0 < n <= |id| && AllHex(id[..n])
    ensures AllHex(id[..n - 1]) && ParseHex(id[..n]).Some? && ParseHex(id[..n - 1]).Some?
    ensures ParseHex(id[..n]).value == ParseHex(id[..n - 1]).value * 16 + DigitValue(id[n - 1])
  {
    assert id[..n][..n - 1] == id[..n - 1] && id[..n][n - 1] == id[n - 1];
    assert forall i | 0 <= i < n - 1 :: id[..n - 1][i] == id[..n][i];
    ParseHexRange(id[..n]);
    ParseHexRange(id[..n - 1]);
  }

  /** The number that a text of decimal digits spells. */
  function Spelled(digits: string): int {
    if digits == "" then 0 else Spelled(digits[..|digits| - 1]) * 10 + (digits[|digits| - 1] as int - 48)
  }

  /** A number is printed as decimal digits that spell it, without leading zeros. */
  lemma {:induction false} DecimalMeans(n: nat)
    ensures var d := Decimal(n);
      && d != "" && (forall i | 0 <= i < |d| :: '0' <= d[i] <= '9')
      && Spelled(d) == n
      && (|d| > 1 ==> d[0] != '0')
  {
    if n < 10 {
      assert Decimal(n)[..0] == "" && Spelled("") == 0;
    } else {
      DecimalMeans(n / 10);
      var d := Decimal(n);
      assert d[..|d| - 1] == Decimal(n / 10);
      if n / 10 < 10 {
        assert Decimal(n / 10)[0] as int == 48 + n / 10;
      }
    }
  }

  /** Merging into an empty text writes the anchored block with the one export line. */
  lemma FirstExport(imageID: string, subnet: string)
    requires LooksLikeUUID(imageID)
    ensures Fsid(imageID).Some?
    ensures Merge("", imageID, subnet) == Some(
              "\n"
              + ("# BEGIN" + " clustr-managed NFS exports" + (" \U{2014} do not edit" + " between these lines")) + "\n"
              + ("/var/lib/clustr/images/" + imageID + "/rootfs" + " " + subnet
                 + "(ro,no_subtree_check,fsid=" + Decimal(Fsid(imageID).value) + ")") + "\n"
              + ("# END" + " clustr-managed NFS exports") + "\n")
  {
    UUIDFacts(imageID);
    AnchorTexts();
    FirstMerge(imageID, subnet);
  }

  lemma FirstMerge(imageID: string, subnet: string)
    requires Fsid(imageID).Some?
    ensures Merge("", imageID, subnet) == Some("\n" + BEGIN_ANCHOR + "\n" + ExportLine(imageID, subnet, Fsid(imageID).value) + "\n" + END_ANCHOR + "\n")
  {
    var line := ExportLine(imageID, subnet, Fsid(imageID).value);
    hide Fsid, ExportLine, Decimal;
    EmptyText();
    PrintedEmpty(BEGIN_ANCHOR, line, END_ANCHOR);
  }

  lemma PrintedEmpty(begin: string, line: string, end: string)
    ensures Join([] + ["", begin] + ([] + [line]) + [end] + [] + [""]) == "\n" + begin + "\n" + line + "\n" + end + "\n"
  {
    PrintedText([], begin, [line], end, []);
    EachOfFew(line, "");
    assert [] + [line] == [line] && Each([]) == "";
    hide Join, Each;
    assert "" + ("\n" + begin + "\n") + (line + "\n") + (end + "\n") + "" == "\n" + begin + "\n" + line + "\n" + end + "\n";
  }

  lemma EmptyText()
    ensures Parse("") == Doc([""], [], []) && TrimEnd([""]) == [] && NonBlank([]) == []
    ensures forall images :: Without([], images) == []
  {
    AnchorFacts();
    assert Split("", '\n') == [""];
    ScanAnchorFree([""], [], false, false);
    assert TrimEnd([]) == [];
  }

  lemma AnchorTexts()
    ensures BEGIN_ANCHOR == "# BEGIN" + " clustr-managed NFS exports" + (" \U{2014} do not edit" + " between these lines")
    ensures END_ANCHOR == "# END" + " clustr-managed NFS exports"
  {
  }

  // ----- last write wins, in terms of characters -----

  function StartingWith(lines: Lines, prefix: string): Lines {
    if lines == [] then [] else (if prefix <= lines[0] then [lines[0]] else []) + StartingWith(lines[1..], prefix)
  }

  lemma {:induction false} IndexFound(s: string, sub: string)
    requires Index(s, sub).Some?
    ensures Index(s, sub).value <= |s| && sub <= s[Index(s, sub).value..]
  {
    if !(sub <= s) {
      IndexFound(s[1..], sub);
    }
  }

  /** A line belongs to an image exactly if it starts with the path of its root file system. */
  lemma ExtractedIffPath(line: string, imageID: string)
    requires IsUUID(imageID)
    ensures ExtractImageID(line) == imageID <==> IMAGES_PREFIX + imageID + ROOTFS <= line
  {
    var path := IMAGES_PREFIX + imageID + ROOTFS;
    NoSlashOrDot(imageID);
    hide IsUUID;
    if path <= line {
      var tail := line[|path|..];
      assert line == IMAGES_PREFIX + (imageID + ROOTFS + tail);
      IndexAfter(imageID, ROOTFS, tail);
      IndexAbsent(imageID, "/");
      IndexAbsent(imageID, "..");
      assert (imageID + ROOTFS + tail)[..|imageID|] == imageID;
    }
    if ExtractImageID(line) == imageID {
      assert imageID != "" by {
        assert IsUUID(imageID);
        UUIDIsLong(imageID);
      }
      var rest := line[|IMAGES_PREFIX|..];
      IndexFound(rest, ROOTFS);
      var n := Index(rest, ROOTFS).value;
      assert rest[..n] == imageID && rest == imageID + rest[n..];
      assert line == IMAGES_PREFIX + rest;
    }
  }

  lemma UUIDIsLong(imageID: string)
    requires IsUUID(imageID)
    ensures |imageID| == 36
  {
  }

  lemma {:induction false} LinesOfPath(lines: Lines, imageID: string)
    requires IsUUID(imageID)
    ensures LinesOf(lines, imageID) == StartingWith(lines, IMAGES_PREFIX + imageID + ROOTFS)
  {
    hide ExtractImageID, IsUUID;
    if lines != [] {
      LinesOfPath(lines[1..], imageID);
      ExtractedIffPath(lines[0], imageID);
    }
  }

  /** After any sequence of merges from any text, the managed lines that start with the path of an image merged last with
      some subnet are exactly one: its export to that subnet. */
  lemma LatestExport(text: string, requests: seq<Request>, last: nat)
    requires last < |requests| && forall r | r in requests :: LooksLikeUUID(r.imageID) && '\n' !in r.subnet
    requires forall n | last < n < |requests| :: requests[n].imageID != requests[last].imageID
    ensures var r := requests[last];
      && Fsid(r.imageID).Some?
      && StartingWith(Parse(MergeAll(text, requests)).managed, "/var/lib/clustr/images/" + r.imageID + "/rootfs")
         == ["/var/lib/clustr/images/" + r.imageID + "/rootfs" + " " + r.subnet
             + "(ro,no_subtree_check,fsid=" + Decimal(Fsid(r.imageID).value) + ")"]
  {
    var r := requests[last];
    assert r in requests;
    assert forall q | q in requests :: q.Valid();
    UUIDFacts(r.imageID);
    hide IsUUID, Fsid, Decimal, Scan;
    LastWriteWins(text, requests);
    LatestIs(requests, last);
    LinesOfPath(Parse(MergeAll(text, requests)).managed, r.imageID);
  }

  lemma {:induction false} LatestIs(requests: seq<Request>, last: nat)
    requires last < |requests| && forall n | last < n < |requests| :: requests[n].imageID != requests[last].imageID
    ensures requests[last].imageID in LatestSubnets(requests)
    ensures LatestSubnets(requests)[requests[last].imageID] == requests[last].subnet
  {
    if last < |requests| - 1 {
      LatestIs(requests[..|requests| - 1], last);
    }
  }
}
