/** Embedding a build id in a linked 64-bit little-endian ELF image. */
module BuildId {
  import opened Wrappers
  import opened Bytes
  import opened Sequences
  import Fips180
  import Sha1

  // The note, a longer section name table and a longer section header table are appended,
  // and two fields of the ELF header are pointed at them.  Sums of file offsets are
  // computed in 64 bits with overflow checks.

  const EHDR_SH_OFF := 0x28
  const EHDR_SHENTSIZE := 0x3A
  const EHDR_SHNUM := 0x3C
  const EHDR_SHSTRNDX := 0x3E
  const SHDR_NAME := 0x00
  const SHDR_TYPE := 0x04
  const SHDR_OFFSET := 0x18
  const SHDR_SIZE := 0x20
  const SHDR_ADDRALIGN := 0x30
  const SHT_NOTE := 7
  const NT_GNU_BUILD_ID := 3
  const ELF_MAGIC: seq<byte> := [0x7f, 0x45, 0x4c, 0x46]
  const GNU: seq<byte> := [0x47, 0x4e, 0x55, 0]
  /** ".note.gnu.build-id" */
  const NOTE_SECTION: seq<byte> :=
    [0x2e, 0x6e, 0x6f, 0x74, 0x65, 0x2e, 0x67, 0x6e, 0x75, 0x2e, 0x62, 0x75, 0x69, 0x6c, 0x64, 0x2d, 0x69, 0x64]

  datatype Outcome =
    | Declined
    | Overflow
    | Rewritten(image: seq<byte>, id: seq<byte>)

  // ---- reading an image

  function Field(image: seq<byte>, at: nat, width: nat): (n: nat)
    requires at + width <= |image|
  {
    Little(image[at..at + width])
  }

  predicate IsElf64(image: seq<byte>) {
    |image| >= 64 && image[0..4] == ELF_MAGIC && image[4] == 2 && image[5] == 1
  }

  function TableOffset(image: seq<byte>): nat
    requires |image| >= 64
  {
    Field(image, EHDR_SH_OFF, 8)
  }

  function EntrySize(image: seq<byte>): nat
    requires |image| >= 64
  {
    Field(image, EHDR_SHENTSIZE, 2)
  }

  function NameTableIndex(image: seq<byte>): nat
    requires |image| >= 64
  {
    Field(image, EHDR_SHSTRNDX, 2)
  }

  /** The number of sections; zero in the header means that it stands in section 0. */
  function SectionCount(image: seq<byte>): nat
    requires |image| >= 64 && TableOffset(image) + SHDR_SIZE + 8 <= |image|
  {
    if Field(image, EHDR_SHNUM, 2) != 0 then Field(image, EHDR_SHNUM, 2)
    else Field(image, TableOffset(image) + SHDR_SIZE, 8)
  }

  function TableLength(image: seq<byte>, count: nat): nat
    requires |image| >= 64
  {
    count * EntrySize(image)
  }

  /** The table has `count` entries of at least 64 bytes, and the name table is one of them. */
  predicate HasTable(image: seq<byte>, count: nat) {
    |image| >= 64 && EntrySize(image) >= 64 && NameTableIndex(image) < count &&
    TableOffset(image) + TableLength(image, count) <= |image|
  }

  function HeaderAt(image: seq<byte>, i: nat): nat
    requires |image| >= 64
  {
    TableOffset(image) + TableLength(image, i)
  }

  lemma HeaderFits(image: seq<byte>, count: nat, i: nat)
    requires HasTable(image, count) && i < count
    ensures HeaderAt(image, i) + 64 <= HeaderAt(image, i) + EntrySize(image) <= |image|
  {
    EntryInside(i, count, EntrySize(image));
  }

  lemma EntryInside(i: nat, count: nat, size: nat)
    requires i < count
    ensures i * size + size <= count * size
  {
    assert (i + 1) * size <= count * size;
  }

  function NameTableOffset(image: seq<byte>): nat
    requires |image| >= 64 && HeaderAt(image, NameTableIndex(image)) + 64 <= |image|
  {
    Field(image, HeaderAt(image, NameTableIndex(image)) + SHDR_OFFSET, 8)
  }

  function NameTableSize(image: seq<byte>): nat
    requires |image| >= 64 && HeaderAt(image, NameTableIndex(image)) + 64 <= |image|
  {
    Field(image, HeaderAt(image, NameTableIndex(image)) + SHDR_SIZE, 8)
  }

  ghost predicate HasNames(image: seq<byte>, count: nat) {
    HasTable(image, count) && HeaderAt(image, NameTableIndex(image)) + 64 <= |image| &&
    NameTableOffset(image) + NameTableSize(image) <= |image|
  }

  ghost function NameTable(image: seq<byte>, count: nat): seq<byte>
    requires HasNames(image, count)
  {
    image[NameTableOffset(image)..NameTableOffset(image) + NameTableSize(image)]
  }

  /** The bytes up to the first NUL. */
  function CString(s: seq<byte>): Option<seq<byte>> {
    if s == [] then None
    else if s[0] == 0 then Some([])
    else match CString(s[1..]) case Some(rest) => Some([s[0]] + rest) case None => None
  }

  /** The name of section `i`, if it ends inside the name table. */
  ghost function SectionName(image: seq<byte>, count: nat, i: nat): Option<seq<byte>> {
    if HasNames(image, count) && i < count && HeaderAt(image, i) + 64 <= |image| then
      NameIn(NameTable(image, count), Field(image, HeaderAt(image, i) + SHDR_NAME, 4))
    else None
  }

  function NameIn(names: seq<byte>, at: nat): Option<seq<byte>> {
    if at <= |names| then CString(names[at..]) else None
  }

  // ---- which images are rewritten

  function RoundUp(n: nat, align: nat): (r: nat)
    requires align > 0
    ensures n <= r
  {
    n + (align - n % align) % align
  }

  const NOTE_LENGTH := 36

  function NoteAt(length: nat): nat {
    RoundUp(length, 4)
  }

  function NamesAt(length: nat): nat {
    NoteAt(length) + NOTE_LENGTH
  }

  function NewTableAt(length: nat, names: nat): nat {
    RoundUp(NamesAt(length) + names + |NOTE_SECTION| + 1, 8)
  }

  /** No vector holds this many bytes. */
  const MAX_LENGTH := 0x8000_0000_0000_0000

  ghost predicate Rewritable(image: seq<byte>) {
    IsElf64(image) && TableOffset(image) != 0 && EntrySize(image) >= 64 &&
    TableOffset(image) + EntrySize(image) <= |image| &&
    (var count := SectionCount(image);
     0 < NameTableIndex(image) < count < TWO_16 && HasNames(image, count) &&
     NewTableAt(|image|, NameTableSize(image)) + TableLength(image, count + 1) < MAX_LENGTH)
  }

  // ---- the rewritten image

  predicate InEhdrField(i: nat) {
    EHDR_SH_OFF <= i < EHDR_SH_OFF + 8 || EHDR_SHNUM <= i < EHDR_SHNUM + 2
  }

  /** The original bytes, but for the table offset and the section count. */
  ghost predicate KeepsBytes(original: seq<byte>, image: seq<byte>) {
    |original| <= |image| && forall i | 0 <= i < |original| && !InEhdrField(i) :: image[i] == original[i]
  }

  /** The fields of the name table's own header that say where it is and how long. */
  predicate InNamesField(i: nat, names: nat, k: nat) {
    i == names && SHDR_OFFSET <= k < SHDR_SIZE + 8
  }

  ghost predicate KeepsHeaders(original: seq<byte>, image: seq<byte>, count: nat)
    requires HasTable(original, count) && HasTable(image, count + 1)
  {
    EntrySize(image) == EntrySize(original) && NameTableIndex(image) == NameTableIndex(original) &&
    forall i, k | 0 <= i < count && 0 <= k < EntrySize(original) && !InNamesField(i, NameTableIndex(original), k) ::
      ByteOfHeader(image, count + 1, i, k) == ByteOfHeader(original, count, i, k)
  }

  function ByteOfHeader(image: seq<byte>, count: nat, i: nat, k: nat): byte
    requires HasTable(image, count) && i < count && k < EntrySize(image)
  {
    HeaderFits(image, count, i);
    image[HeaderAt(image, i) + k]
  }

  /** Section `i` is a note of the right length at offset `at`, named at `name`. */
  ghost predicate DescribesNote(image: seq<byte>, i: nat, name: nat, at: nat)
    requires |image| >= 64 && HeaderAt(image, i) + 64 <= |image|
  {
    var h := HeaderAt(image, i);
    Field(image, h + SHDR_NAME, 4) == name && Field(image, h + SHDR_TYPE, 4) == SHT_NOTE &&
    Field(image, h + SHDR_OFFSET, 8) == at && Field(image, h + SHDR_SIZE, 8) == NOTE_LENGTH &&
    Field(image, h + SHDR_ADDRALIGN, 8) == 4
  }

  /** The note: name length, descriptor length, type, name, descriptor. */
  ghost predicate IsNote(note: seq<byte>, id: seq<byte>) {
    |note| == NOTE_LENGTH && Field(note, 0, 4) == |GNU| && Field(note, 4, 4) == 20 &&
    Field(note, 8, 4) == NT_GNU_BUILD_ID && note[12..16] == GNU && note[16..] == id
  }

  /** The image holds the note at `at`, 4-aligned, and its last section describes it. */
  ghost predicate HoldsNote(image: seq<byte>, count: nat, name: nat, at: nat, id: seq<byte>)
    requires |image| >= 64 && HeaderAt(image, count) + 64 <= |image|
  {
    at % 4 == 0 && at + NOTE_LENGTH <= |image| && IsNote(image[at..at + NOTE_LENGTH], id) &&
    DescribesNote(image, count, name, at)
  }

  ghost predicate ExtendsNames(original: seq<byte>, image: seq<byte>, count: nat)
    requires HasNames(original, count)
  {
    HasNames(image, count + 1) && NameTable(image, count + 1) == NameTable(original, count) + NOTE_SECTION + [0]
  }

  ghost predicate IsClear(image: seq<byte>, x: nat, y: nat) {
    y <= |image| && forall j | x <= j < y :: image[j] == 0
  }

  /** The fields of the added header that are written. */
  predicate InNoteField(k: int) {
    SHDR_NAME <= k < SHDR_NAME + 4 || SHDR_TYPE <= k < SHDR_TYPE + 4 || SHDR_OFFSET <= k < SHDR_OFFSET + 8 ||
    SHDR_SIZE <= k < SHDR_SIZE + 8 || SHDR_ADDRALIGN <= k < SHDR_ADDRALIGN + 8
  }

  /** From `h` on there is one header of zeros but for the written fields, and no more. */
  ghost predicate EndsInNoteHeader(image: seq<byte>, h: nat, entry: nat) {
    |image| == h + entry && forall j | h <= j < |image| && !InNoteField(j - h) :: image[j] == 0
  }

  /** The original, the note, the names, the section table and the added header follow each
      other with zeros in between, and nothing comes after. */
  ghost predicate HoldsNothingElse(original: seq<byte>, count: nat, image: seq<byte>)
    requires HasNames(original, count) && HasTable(image, count + 1)
  {
    var l := LayoutFor(original, count);
    IsClear(image, |original|, l.noteAt) &&
    IsClear(image, l.namesAt + NameTableSize(original) + |NOTE_SECTION| + 1, l.tableAt) &&
    TableOffset(image) == l.tableAt && HeaderAt(image, count) == l.headerAt &&
    EndsInNoteHeader(image, l.headerAt, EntrySize(original))
  }

  /** Everything the rewriting promises. */
  ghost predicate Embedded(original: seq<byte>, count: nat, image: seq<byte>, id: seq<byte>) {
    HasNames(original, count) && HasTable(image, count + 1) && HeaderAt(image, count) + 64 <= |image| &&
    id == Fips180.Digest(original) && KeepsBytes(original, image) && KeepsHeaders(original, image, count) &&
    ExtendsNames(original, image, count) &&
    Field(image, EHDR_SHNUM, 2) == (count + 1) % TWO_16 && TableOffset(image) % 8 == 0 &&
    HoldsNote(image, count, NameTableSize(original) % TWO_32, NoteAt(|original|), id) &&
    HoldsNothingElse(original, count, image)
  }

  // ---- patching

  /** `after` is `before` with `bytes` written at `at`. */
  ghost predicate Patched(before: seq<byte>, after: seq<byte>, at: nat, bytes: seq<byte>) {
    |after| == |before| && at + |bytes| <= |before| && after[at..at + |bytes|] == bytes &&
    forall j | 0 <= j < |before| && !(at <= j < at + |bytes|) :: after[j] == before[j]
  }

  function Patch(s: seq<byte>, at: nat, bytes: seq<byte>): (r: seq<byte>)
    requires at + |bytes| <= |s|
    ensures Patched(s, r, at, bytes)
  {
    s[..at] + bytes + s[at + |bytes|..]
  }

  /** A stretch apart from the patch is as before. */
  lemma PatchedApart(before: seq<byte>, after: seq<byte>, at: nat, bytes: seq<byte>, x: nat, y: nat)
    requires Patched(before, after, at, bytes) && x <= y <= |before| && (y <= at || at + |bytes| <= x)
    ensures after[x..y] == before[x..y]
  {
  }

  lemma WrittenField(image: seq<byte>, at: nat, width: nat, n: nat)
    requires at + width <= |image| && image[at..at + width] == LittleBytes(n, width) && n < Power256(width)
    ensures Field(image, at, width) == n
  {
    LittleRoundTrip(n, width);
  }

  method PadTo(s: seq<byte>, align: nat) returns (r: seq<byte>)
    requires align == 4 || align == 8
    ensures |r| == RoundUp(|s|, align) && r[..|s|] == s && IsClear(r, |s|, |r|)
  {
    r := s;
    ghost var pad := (align - |s| % align) % align;
    while |r| % align != 0
      invariant |s| <= |r| <= |s| + pad && r[..|s|] == s && IsClear(r, |s|, |r|)
      decreases |s| + pad - |r|
    {
      PadNeeded(|s|, |r| - |s|, align);
      r := r + [0];
    }
    PadNeeded(|s|, |r| - |s|, align);
  }

  lemma PadNeeded(n: nat, pad: nat, align: nat)
    requires (align == 4 || align == 8) && pad <= (align - n % align) % align
    ensures (n + pad) % align == 0 <==> pad == (align - n % align) % align
  {
    if align == 4 {} else {}
  }

  lemma RoundUpIsMultiple(n: nat, align: nat)
    requires align == 4 || align == 8
    ensures RoundUp(n, align) % align == 0
  {
    PadNeeded(n, (align - n % align) % align, align);
  }

  // ---- the note

  method BuildIdNote(id: seq<byte>) returns (note: seq<byte>)
    requires |id| == 20
    ensures IsNote(note, id)
  {
    hide LittleBytes, Little;
    note := LittleBytes(4, 4);
    note := note + LittleBytes(|id|, 4);
    note := note + LittleBytes(NT_GNU_BUILD_ID, 4);
    note := note + GNU;
    note := note + id;
    Powers();
    assert note[0..4] == LittleBytes(4, 4) && note[4..8] == LittleBytes(20, 4) && note[8..12] == LittleBytes(3, 4);
    WrittenField(note, 0, 4, 4);
    WrittenField(note, 4, 4, 20);
    WrittenField(note, 8, 4, 3);
  }

  // ---- putting the image together

  /** Where the parts of the new image stand. */
  datatype Layout = Layout(noteAt: nat, namesAt: nat, tableAt: nat, headerAt: nat)

  ghost function LayoutOf(length: nat, names: nat, table: nat): (l: Layout)
    ensures length <= l.noteAt && l.noteAt + NOTE_LENGTH == l.namesAt
    ensures l.namesAt + names + |NOTE_SECTION| + 1 <= l.tableAt && l.tableAt + table == l.headerAt
    ensures l.noteAt % 4 == 0 && l.tableAt % 8 == 0
  {
    RoundUpIsMultiple(length, 4);
    RoundUpIsMultiple(NamesAt(length) + names + |NOTE_SECTION| + 1, 8);
    Layout(NoteAt(length), NamesAt(length), NewTableAt(length, names), NewTableAt(length, names) + table)
  }

  /** The original, the note, the names and the section table, before any patch. */
  ghost predicate HoldsParts(original: seq<byte>, names: seq<byte>, table: seq<byte>, note: seq<byte>, out: seq<byte>) {
    var l := LayoutOf(|original|, |names|, |table|);
    l.headerAt <= |out| && out[..|original|] == original && out[l.noteAt..l.namesAt] == note &&
    out[l.namesAt..l.namesAt + |names| + |NOTE_SECTION| + 1] == names + NOTE_SECTION + [0] &&
    out[l.tableAt..l.headerAt] == table &&
    IsClear(out, |original|, l.noteAt) && IsClear(out, l.namesAt + |names| + |NOTE_SECTION| + 1, l.tableAt)
  }

  lemma FrontSlice(s: seq<byte>, front: seq<byte>, x: nat, y: nat)
    requires x <= y <= |front| <= |s| && s[..|front|] == front
    ensures s[x..y] == front[x..y]
  {
    assert s[..|front|][x..y] == s[x..y];
  }

  method AppendParts(original: seq<byte>, names: seq<byte>, table: seq<byte>, note: seq<byte>)
    returns (out: seq<byte>, noteAt: nat, namesAt: nat, tableAt: nat)
    requires |note| == NOTE_LENGTH
    ensures HoldsParts(original, names, table, note, out)
    ensures Layout(noteAt, namesAt, tableAt, |out|) == LayoutOf(|original|, |names|, |table|)
  {
    hide RoundUp;
    out := PadTo(original, 4);
    ghost var first := out;
    noteAt := |out|;
    out := out + note;
    namesAt := |out|;
    out := out + names + NOTE_SECTION + [0];
    ghost var second := out;
    out := PadTo(out, 8);
    ghost var third := out;
    tableAt := |out|;
    out := out + table;
    ghost var l := LayoutOf(|original|, |names|, |table|);
    assert |first| == l.noteAt && |second| == l.namesAt + |names| + |NOTE_SECTION| + 1 && |third| == l.tableAt;
    assert second[..|original|] == original && third[..|second|] == second && out[..|third|] == third;
    assert second[l.noteAt..l.namesAt] == note;
    assert second[l.namesAt..] == names + NOTE_SECTION + [0];
    assert out[..|second|] == second;
    FrontSlice(out, second, 0, |original|);
    FrontSlice(out, second, l.noteAt, l.namesAt);
    FrontSlice(out, second, l.namesAt, |second|);
  }

  /** `r` is `s` but for the bytes from `x` up to `y`. */
  ghost predicate SameBut(s: seq<byte>, r: seq<byte>, x: nat, y: nat) {
    |r| == |s| && forall j | 0 <= j < |s| && !(x <= j < y) :: r[j] == s[j]
  }

  /** Points the name table's header at its new home. */
  method PointNames(out: seq<byte>, h: nat, offset: nat, size: nat) returns (r: seq<byte>)
    requires h + 64 <= |out|
    ensures SameBut(out, r, h + SHDR_OFFSET, h + SHDR_SIZE + 8)
    ensures r[h + SHDR_OFFSET..h + SHDR_OFFSET + 8] == LittleBytes(offset, 8)
    ensures r[h + SHDR_SIZE..h + SHDR_SIZE + 8] == LittleBytes(size, 8)
  {
    r := Patch(out, h + SHDR_OFFSET, LittleBytes(offset, 8));
    ghost var before := r;
    r := Patch(r, h + SHDR_SIZE, LittleBytes(size, 8));
    PatchedApart(before, r, h + SHDR_SIZE, LittleBytes(size, 8), h + SHDR_OFFSET, h + SHDR_OFFSET + 8);
  }

  /** The header of the note, as bytes at `h`. */
  ghost predicate WritesNoteHeader(r: seq<byte>, h: nat, name: nat, offset: nat) {
    h + 64 <= |r| &&
    r[h + SHDR_NAME..h + SHDR_NAME + 4] == LittleBytes(name, 4) &&
    r[h + SHDR_TYPE..h + SHDR_TYPE + 4] == LittleBytes(SHT_NOTE, 4) &&
    r[h + SHDR_OFFSET..h + SHDR_OFFSET + 8] == LittleBytes(offset, 8) &&
    r[h + SHDR_SIZE..h + SHDR_SIZE + 8] == LittleBytes(NOTE_LENGTH, 8) &&
    r[h + SHDR_ADDRALIGN..h + SHDR_ADDRALIGN + 8] == LittleBytes(4, 8)
  }

  /** One more section header, describing the note. */
  method AppendHeader(out: seq<byte>, entry: nat, name: nat, offset: nat) returns (r: seq<byte>)
    requires entry >= 64
    ensures |r| == |out| + entry && forall j | 0 <= j < |out| :: r[j] == out[j]
    ensures WritesNoteHeader(r, |out|, name, offset) && EndsInNoteHeader(r, |out|, entry)
  {
    hide LittleBytes;
    var h := |out|;
    r := out + seq(entry, _ => 0);
    r := Patch(r, h + SHDR_NAME, LittleBytes(name, 4));
    r := Patch(r, h + SHDR_TYPE, LittleBytes(SHT_NOTE, 4));
    r := Patch(r, h + SHDR_OFFSET, LittleBytes(offset, 8));
    r := Patch(r, h + SHDR_SIZE, LittleBytes(NOTE_LENGTH, 8));
    r := Patch(r, h + SHDR_ADDRALIGN, LittleBytes(4, 8));
  }

  method PointTable(out: seq<byte>, table: nat, count: nat) returns (r: seq<byte>)
    requires |out| >= 64
    ensures |r| == |out| && forall j | 0 <= j < |out| && !InEhdrField(j) :: r[j] == out[j]
    ensures r[EHDR_SH_OFF..EHDR_SH_OFF + 8] == LittleBytes(table, 8)
    ensures r[EHDR_SHNUM..EHDR_SHNUM + 2] == LittleBytes(count % TWO_16, 2)
  {
    r := Patch(out, EHDR_SH_OFF, LittleBytes(table, 8));
    ghost var before := r;
    r := Patch(r, EHDR_SHNUM, LittleBytes(count % TWO_16, 2));
    PatchedApart(before, r, EHDR_SHNUM, LittleBytes(count % TWO_16, 2), EHDR_SH_OFF, EHDR_SH_OFF + 8);
  }

  /** What the finished image holds, part by part. */
  ghost predicate Assembled(original: seq<byte>, names: seq<byte>, table: seq<byte>, note: seq<byte>,
                            namesHeader: nat, entry: nat, count: nat, parts: seq<byte>, image: seq<byte>) {
    var l := LayoutOf(|original|, |names|, |table|);
    var h := l.tableAt + namesHeader;
    64 <= |original| && h + 64 <= l.headerAt && 64 <= entry &&
    HoldsParts(original, names, table, note, parts) && |parts| == l.headerAt && |image| == l.headerAt + entry &&
    (forall j | 0 <= j < |parts| && !InEhdrField(j) && !(h + SHDR_OFFSET <= j < h + SHDR_SIZE + 8) :: image[j] == parts[j]) &&
    image[EHDR_SH_OFF..EHDR_SH_OFF + 8] == LittleBytes(l.tableAt, 8) &&
    image[EHDR_SHNUM..EHDR_SHNUM + 2] == LittleBytes((count + 1) % TWO_16, 2) &&
    image[h + SHDR_OFFSET..h + SHDR_OFFSET + 8] == LittleBytes(l.namesAt, 8) &&
    image[h + SHDR_SIZE..h + SHDR_SIZE + 8] == LittleBytes(|names| + |NOTE_SECTION| + 1, 8) &&
    WritesNoteHeader(image, l.headerAt, |names| % TWO_32, l.noteAt) &&
    EndsInNoteHeader(image, l.headerAt, entry)
  }

  method Assemble(original: seq<byte>, names: seq<byte>, table: seq<byte>, note: seq<byte>,
                  namesHeader: nat, entry: nat, count: nat)
    returns (image: seq<byte>, ghost parts: seq<byte>)
    requires |note| == NOTE_LENGTH && |original| >= 64 && entry >= 64 && namesHeader + 64 <= |table|
    ensures Assembled(original, names, table, note, namesHeader, entry, count, parts, image)
  {
    hide RoundUp, LittleBytes;
    var out, noteAt, namesAt, tableAt := AppendParts(original, names, table, note);
    parts := out;
    out := PointNames(out, tableAt + namesHeader, namesAt, |names| + |NOTE_SECTION| + 1);
    out := AppendHeader(out, entry, |names| % TWO_32, noteAt);
    image := PointTable(out, tableAt, count + 1);
  }

  // ---- reading the finished image

  ghost function OldTable(original: seq<byte>, count: nat): seq<byte>
    requires HasTable(original, count)
  {
    original[TableOffset(original)..TableOffset(original) + TableLength(original, count)]
  }

  /** The finished image of `original`, which has `count` sections. */
  ghost predicate IsResult(original: seq<byte>, count: nat, note: seq<byte>, parts: seq<byte>, image: seq<byte>) {
    HasNames(original, count) && |note| == NOTE_LENGTH && |image| < MAX_LENGTH &&
    Assembled(original, NameTable(original, count), OldTable(original, count), note,
              TableLength(original, NameTableIndex(original)), EntrySize(original), count, parts, image)
  }

  ghost function LayoutFor(original: seq<byte>, count: nat): Layout
    requires HasNames(original, count)
  {
    LayoutOf(|original|, |NameTable(original, count)|, |OldTable(original, count)|)
  }

  lemma SlicesAgree(a: seq<byte>, b: seq<byte>, x: nat, y: nat)
    requires x <= y <= |a| && y <= |b| && forall j | x <= j < y :: a[j] == b[j]
    ensures a[x..y] == b[x..y]
  {
  }

  lemma ResultKeepsBytes(original: seq<byte>, count: nat, note: seq<byte>, parts: seq<byte>, image: seq<byte>)
    requires IsResult(original, count, note, parts, image)
    ensures KeepsBytes(original, image)
  {
    forall i | 0 <= i < |original| && !InEhdrField(i) ensures image[i] == original[i] {
      assert parts[..|original|][i] == original[i];
    }
  }

  lemma ResultHeader(original: seq<byte>, count: nat, note: seq<byte>, parts: seq<byte>, image: seq<byte>)
    requires IsResult(original, count, note, parts, image)
    ensures TableOffset(image) == LayoutFor(original, count).tableAt
    ensures EntrySize(image) == EntrySize(original) && NameTableIndex(image) == NameTableIndex(original)
    ensures Field(image, EHDR_SHNUM, 2) == (count + 1) % TWO_16
    ensures HasTable(image, count + 1) && HeaderAt(image, count) == LayoutFor(original, count).headerAt
  {
    ResultKeepsBytes(original, count, note, parts, image);
    SlicesAgree(image, original, EHDR_SHENTSIZE, EHDR_SHENTSIZE + 2);
    SlicesAgree(image, original, EHDR_SHSTRNDX, EHDR_SHSTRNDX + 2);
    Powers();
    WrittenField(image, EHDR_SH_OFF, 8, LayoutFor(original, count).tableAt);
    WrittenField(image, EHDR_SHNUM, 2, (count + 1) % TWO_16);
    OneMoreEntry(original, image, count);
  }

  lemma OneMoreEntry(original: seq<byte>, image: seq<byte>, count: nat)
    requires |original| >= 64 && |image| >= 64 && EntrySize(image) == EntrySize(original)
    ensures TableLength(image, count) == TableLength(original, count)
    ensures TableLength(image, count + 1) == TableLength(original, count) + EntrySize(original)
  {
  }

  /** Byte `k` of entry `i` lies in the name table's header only if `i` is its index. */
  lemma EntriesApart(original: seq<byte>, i: nat, j: nat, k: nat)
    requires |original| >= 64 && k < EntrySize(original)
    ensures i < j ==> TableLength(original, i) + k < TableLength(original, j)
    ensures i > j ==> TableLength(original, i) + k >= TableLength(original, j) + EntrySize(original)
  {
    var size := EntrySize(original);
    if i < j { EntryInside(i, j, size); }
    if i > j { EntryInside(j, i, size); }
  }

  lemma ResultByte(original: seq<byte>, count: nat, note: seq<byte>, parts: seq<byte>, image: seq<byte>, i: nat, k: nat)
    requires IsResult(original, count, note, parts, image) && HasTable(image, count + 1)
    requires TableOffset(image) == LayoutFor(original, count).tableAt && EntrySize(image) == EntrySize(original)
    requires i < count && k < EntrySize(original) && !InNamesField(i, NameTableIndex(original), k)
    ensures ByteOfHeader(image, count + 1, i, k) == ByteOfHeader(original, count, i, k)
  {
    hide Assembled, RoundUp, NameTable;
    var l, names := LayoutFor(original, count), NameTableIndex(original);
    var at := TableLength(original, i) + k;
    EntriesApart(original, i, names, k);
    EntriesApart(original, i, count, k);
    ResultParts(original, count, note, parts, image, at);
    assert OldTable(original, count)[at] == original[TableOffset(original) + at];
  }

  /** A byte of the new section table outside the name table's two fields. */
  lemma ResultParts(original: seq<byte>, count: nat, note: seq<byte>, parts: seq<byte>, image: seq<byte>, at: nat)
    requires IsResult(original, count, note, parts, image) && at < |OldTable(original, count)|
    requires var h := TableLength(original, NameTableIndex(original)); !(h + SHDR_OFFSET <= at < h + SHDR_SIZE + 8)
    ensures var l := LayoutFor(original, count);
      l.tableAt + at < |image| && image[l.tableAt + at] == OldTable(original, count)[at]
  {
    hide RoundUp, NameTable, LittleBytes;
    var l := LayoutFor(original, count);
    assert parts[l.tableAt..l.headerAt][at] == parts[l.tableAt + at];
  }

  lemma ResultKeepsHeaders(original: seq<byte>, count: nat, note: seq<byte>, parts: seq<byte>, image: seq<byte>)
    requires IsResult(original, count, note, parts, image)
    ensures HasTable(image, count + 1) && KeepsHeaders(original, image, count)
  {
    hide Assembled, ByteOfHeader;
    ResultHeader(original, count, note, parts, image);
    forall i, k | 0 <= i < count && 0 <= k < EntrySize(original) && !InNamesField(i, NameTableIndex(original), k)
      ensures ByteOfHeader(image, count + 1, i, k) == ByteOfHeader(original, count, i, k)
    {
      ResultByte(original, count, note, parts, image, i, k);
    }
  }

  lemma ResultNameTable(original: seq<byte>, count: nat, note: seq<byte>, parts: seq<byte>, image: seq<byte>)
    requires IsResult(original, count, note, parts, image)
    ensures HasTable(image, count + 1) && HeaderAt(image, NameTableIndex(image)) + 64 <= |image|
    ensures NameTableOffset(image) == LayoutFor(original, count).namesAt
    ensures NameTableSize(image) == |NameTable(original, count)| + |NOTE_SECTION| + 1
  {
    hide RoundUp, LittleBytes, Little, NameTable, OldTable, HoldsParts, WritesNoteHeader;
    ResultHeader(original, count, note, parts, image);
    var l := LayoutFor(original, count);
    var h := HeaderAt(image, NameTableIndex(image));
    assert h == l.tableAt + TableLength(original, NameTableIndex(original));
    Powers();
    WrittenField(image, h + SHDR_OFFSET, 8, l.namesAt);
    WrittenField(image, h + SHDR_SIZE, 8, |NameTable(original, count)| + |NOTE_SECTION| + 1);
  }

  lemma ResultExtendsNames(original: seq<byte>, count: nat, note: seq<byte>, parts: seq<byte>, image: seq<byte>)
    requires IsResult(original, count, note, parts, image)
    ensures ExtendsNames(original, image, count)
  {
    hide RoundUp, NameTableOffset, NameTableSize, OldTable;
    ResultNameTable(original, count, note, parts, image);
    var l, size := LayoutFor(original, count), |NameTable(original, count)| + |NOTE_SECTION| + 1;
    SlicesAgree(image, parts, l.namesAt, l.namesAt + size);
  }

  lemma ResultHoldsNote(original: seq<byte>, count: nat, note: seq<byte>, parts: seq<byte>, image: seq<byte>, id: seq<byte>)
    requires IsResult(original, count, note, parts, image) && IsNote(note, id)
    ensures HeaderAt(image, count) + 64 <= |image|
    ensures HoldsNote(image, count, NameTableSize(original) % TWO_32, NoteAt(|original|), id)
  {
    hide RoundUp, LittleBytes, Little, IsNote;
    ResultHeader(original, count, note, parts, image);
    var l := LayoutFor(original, count);
    SlicesAgree(image, parts, l.noteAt, l.namesAt);
    Powers();
    var h := l.headerAt;
    WrittenField(image, h + SHDR_NAME, 4, NameTableSize(original) % TWO_32);
    WrittenField(image, h + SHDR_TYPE, 4, SHT_NOTE);
    WrittenField(image, h + SHDR_OFFSET, 8, l.noteAt);
    WrittenField(image, h + SHDR_SIZE, 8, NOTE_LENGTH);
    WrittenField(image, h + SHDR_ADDRALIGN, 8, 4);
  }

  lemma ResultHoldsNothingElse(original: seq<byte>, count: nat, note: seq<byte>, parts: seq<byte>, image: seq<byte>)
    requires IsResult(original, count, note, parts, image)
    ensures HasTable(image, count + 1) && HoldsNothingElse(original, count, image)
  {
    hide RoundUp, LittleBytes, Little, WritesNoteHeader, NameTableOffset, NameTableSize, OldTable;
    ResultHeader(original, count, note, parts, image);
    var l := LayoutFor(original, count);
    var end := l.namesAt + |NameTable(original, count)| + |NOTE_SECTION| + 1;
    ClearStays(parts, image, |original|, l.noteAt);
    ClearStays(parts, image, end, l.tableAt);
  }

  lemma ClearStays(parts: seq<byte>, image: seq<byte>, x: nat, y: nat)
    requires IsClear(parts, x, y) && y <= |image| && forall j | x <= j < y :: image[j] == parts[j]
    ensures IsClear(image, x, y)
  {
  }

  lemma ResultIsEmbedded(original: seq<byte>, count: nat, note: seq<byte>, parts: seq<byte>, image: seq<byte>, id: seq<byte>)
    requires IsResult(original, count, note, parts, image) && IsNote(note, id) && id == Fips180.Digest(original)
    ensures Embedded(original, count, image, id)
  {
    hide Assembled, HoldsNote, ExtendsNames, KeepsHeaders, KeepsBytes, NameTable, OldTable, HoldsNothingElse;
    ResultHoldsNothingElse(original, count, note, parts, image);
    ResultKeepsBytes(original, count, note, parts, image);
    ResultHeader(original, count, note, parts, image);
    ResultKeepsHeaders(original, count, note, parts, image);
    ResultExtendsNames(original, count, note, parts, image);
    ResultHoldsNote(original, count, note, parts, image, id);
  }

  // ---- the rewriting

  /** Some sum of the offsets and lengths that the image declares does not fit. */
  ghost predicate Overflows(image: seq<byte>) {
    |image| >= 64 &&
    (TableOffset(image) + EntrySize(image) >= TWO_64 ||
     (TableOffset(image) + SHDR_SIZE + 8 <= |image| && SumsOverflow(image, SectionCount(image))))
  }

  ghost predicate SumsOverflow(image: seq<byte>, count: nat)
    requires |image| >= 64
  {
    TableOffset(image) + TableLength(image, count) >= TWO_64 ||
    (HeaderAt(image, NameTableIndex(image)) + 64 <= |image| &&
     (NameTableOffset(image) + NameTableSize(image) >= TWO_64 ||
      NewTableAt(|image|, NameTableSize(image)) + TableLength(image, count + 1) >= MAX_LENGTH))
  }

  method Rewrite(original: seq<byte>) returns (r: Outcome)
    ensures r.Rewritten? <==> Rewritable(original)
    ensures r.Rewritten? ==> Embedded(original, SectionCount(original), r.image, r.id)
    ensures r.Overflow? ==> Overflows(original)
  {
    if |original| < 64 || original[0..4] != ELF_MAGIC { return Declined; }
    if original[4] != 2 || original[5] != 1 { return Declined; }
    var offset, entry, names := TableOffset(original), EntrySize(original), NameTableIndex(original);
    if entry < 64 || offset == 0 { return Declined; }
    if offset + entry >= TWO_64 { return Overflow; }
    if offset + entry > |original| { return Declined; }
    var count := Field(original, EHDR_SHNUM, 2);
    if count == 0 {
      count := Field(original, offset + SHDR_SIZE, 8);
      if count == 0 || count >= TWO_16 { return Declined; }
    }
    CountFits(original);
    if names == 0 || names >= count { return Declined; }
    r := RewriteTable(original, count);
  }

  lemma CountFits(image: seq<byte>)
    requires |image| >= 64
    ensures Field(image, EHDR_SHNUM, 2) < TWO_16
  {
    Powers();
    LittleIsBounded(image[EHDR_SHNUM..EHDR_SHNUM + 2]);
  }

  method RewriteTable(original: seq<byte>, count: nat) returns (r: Outcome)
    requires IsElf64(original) && TableOffset(original) != 0 && EntrySize(original) >= 64
    requires TableOffset(original) + EntrySize(original) <= |original| && SectionCount(original) == count
    requires 0 < NameTableIndex(original) < count < TWO_16
    ensures r.Rewritten? <==> Rewritable(original)
    ensures r.Rewritten? ==> Embedded(original, count, r.image, r.id)
    ensures r.Overflow? ==> Overflows(original)
  {
    hide RoundUp, Embedded;
    var offset, entry, table := TableOffset(original), EntrySize(original), TableLength(original, count);
    if offset + table >= TWO_64 {
      return Overflow;
    }
    if offset + table > |original| { return Declined; }
    HeaderFits(original, count, NameTableIndex(original));
    var namesAt, namesSize := NameTableOffset(original), NameTableSize(original);
    if namesAt + namesSize >= TWO_64 {
      return Overflow;
    }
    if namesAt + namesSize > |original| { return Declined; }
    if NewTableAt(|original|, namesSize) + TableLength(original, count + 1) >= MAX_LENGTH {
      return Overflow;
    }
    r := Embed(original, count);
  }

  method Embed(original: seq<byte>, count: nat) returns (r: Outcome)
    requires HasNames(original, count)
    requires NewTableAt(|original|, NameTableSize(original)) + TableLength(original, count + 1) < MAX_LENGTH
    ensures r.Rewritten? && Embedded(original, count, r.image, r.id)
  {
    hide RoundUp, Embedded, Assembled;
    var id := Sha1.Sha1(original);
    var note := BuildIdNote(id);
    var names := original[NameTableOffset(original)..NameTableOffset(original) + NameTableSize(original)];
    var table := original[TableOffset(original)..TableOffset(original) + TableLength(original, count)];
    EntryInside(NameTableIndex(original), count, EntrySize(original));
    var image, parts :=
      Assemble(original, names, table, note, TableLength(original, NameTableIndex(original)), EntrySize(original), count);
    AssembledLength(original, count, note, parts, image);
    ResultIsEmbedded(original, count, note, parts, image, id);
    return Rewritten(image, id);
  }

  lemma AssembledLength(original: seq<byte>, count: nat, note: seq<byte>, parts: seq<byte>, image: seq<byte>)
    requires HasNames(original, count)
    requires Assembled(original, NameTable(original, count), OldTable(original, count), note,
                       TableLength(original, NameTableIndex(original)), EntrySize(original), count, parts, image)
    ensures |image| == NewTableAt(|original|, NameTableSize(original)) + TableLength(original, count + 1)
  {
    hide RoundUp;
    OneMoreEntry(original, original, count);
  }

  // ---- what a reader of the image sees

  /** The front of `image` with the two header fields of `original` written back. */
  function Undone(original: seq<byte>, image: seq<byte>): seq<byte>
    requires 64 <= |original| <= |image|
  {
    var once := Patch(image[..|original|], EHDR_SH_OFF, original[EHDR_SH_OFF..EHDR_SH_OFF + 8]);
    Patch(once, EHDR_SHNUM, original[EHDR_SHNUM..EHDR_SHNUM + 2])
  }

  lemma UndoneIsOriginal(original: seq<byte>, image: seq<byte>)
    requires 64 <= |original| && KeepsBytes(original, image)
    ensures Undone(original, image) == original
  {
    var offset, number := original[EHDR_SH_OFF..EHDR_SH_OFF + 8], original[EHDR_SHNUM..EHDR_SHNUM + 2];
    var once := Patch(image[..|original|], EHDR_SH_OFF, offset);
    var undone := Patch(once, EHDR_SHNUM, number);
    forall i | 0 <= i < |original| ensures undone[i] == original[i] {
      if EHDR_SHNUM <= i < EHDR_SHNUM + 2 {
        assert undone[EHDR_SHNUM..EHDR_SHNUM + 2][i - EHDR_SHNUM] == number[i - EHDR_SHNUM];
      } else if EHDR_SH_OFF <= i < EHDR_SH_OFF + 8 {
        assert once[EHDR_SH_OFF..EHDR_SH_OFF + 8][i - EHDR_SH_OFF] == offset[i - EHDR_SH_OFF];
      } else {
        assert !InEhdrField(i);
      }
    }
  }

  /** Undoing the two header fields gives the image that the id is the hash of. */
  lemma UndoingGivesTheHashedImage(original: seq<byte>, count: nat, image: seq<byte>, id: seq<byte>)
    requires Embedded(original, count, image, id)
    ensures 64 <= |original| <= |image| && Undone(original, image) == original
    ensures Fips180.Digest(Undone(original, image)) == id
  {
    hide Undone, KeepsHeaders, ExtendsNames, HoldsNote;
    UndoneIsOriginal(original, image);
  }

  /** The number of sections reads back right exactly when the new number fits the header
      field, or section 0 of the original already gives 65536 as its size. */
  lemma CountReadsBackExactly(original: seq<byte>, image: seq<byte>, id: seq<byte>)
    requires Rewritable(original) && Embedded(original, SectionCount(original), image, id)
    ensures |image| >= 64 && TableOffset(image) + SHDR_SIZE + 8 <= |image|
    ensures SectionCount(image) == SectionCount(original) + 1 <==>
            SectionCount(original) + 1 < TWO_16 || Field(original, TableOffset(original) + SHDR_SIZE, 8) == TWO_16
  {
    hide *;
    RewritableTable(original);
    var count := SectionCount(original);
    EmbeddedTables(original, count, image, id);
    CountField(image, count);
    SectionZeroKeepsItsSize(original, count, image);
  }

  lemma RewritableTable(image: seq<byte>)
    requires Rewritable(image)
    ensures |image| >= 64 && TableOffset(image) + SHDR_SIZE + 8 <= |image|
    ensures 0 < NameTableIndex(image) && SectionCount(image) < TWO_16
  {
    hide HasNames, SectionCount, Field, NewTableAt;
  }

  lemma EmbeddedTables(original: seq<byte>, count: nat, image: seq<byte>, id: seq<byte>)
    requires Embedded(original, count, image, id)
    ensures HasTable(original, count) && HasTable(image, count + 1) && KeepsHeaders(original, image, count)
    ensures |image| >= 64 && Field(image, EHDR_SHNUM, 2) == (count + 1) % TWO_16
  {
    hide KeepsBytes, KeepsHeaders, ExtendsNames, HoldsNote, Field;
  }

  lemma CountField(image: seq<byte>, count: nat)
    requires HasTable(image, count + 1) && Field(image, EHDR_SHNUM, 2) == (count + 1) % TWO_16 && count < TWO_16
    ensures TableOffset(image) + SHDR_SIZE + 8 <= |image|
    ensures SectionCount(image) == count + 1 <==>
            count + 1 < TWO_16 || Field(image, TableOffset(image) + SHDR_SIZE, 8) == TWO_16
  {
    hide Field;
    HeaderFits(image, count + 1, 0);
  }

  /** Section 0 is not the name table, so all of its header is kept. */
  lemma SectionZeroKeepsItsSize(original: seq<byte>, count: nat, image: seq<byte>)
    requires HasTable(original, count) && HasTable(image, count + 1) && KeepsHeaders(original, image, count)
    requires 0 < NameTableIndex(original)
    ensures TableOffset(original) + SHDR_SIZE + 8 <= |original| && TableOffset(image) + SHDR_SIZE + 8 <= |image|
    ensures Field(image, TableOffset(image) + SHDR_SIZE, 8) == Field(original, TableOffset(original) + SHDR_SIZE, 8)
  {
    hide Little;
    HeaderFits(original, count, 0);
    HeaderFits(image, count + 1, 0);
    var x, y := TableOffset(image) + SHDR_SIZE, TableOffset(original) + SHDR_SIZE;
    forall j | x <= j < x + 8 ensures image[j] == original[j - x + y] {
      var k := j - x + SHDR_SIZE;
      assert ByteOfHeader(image, count + 1, 0, k) == ByteOfHeader(original, count, 0, k);
    }
    ShiftedSlices(image, original, x, y, 8);
  }

  lemma ShiftedSlices(a: seq<byte>, b: seq<byte>, x: nat, y: nat, n: nat)
    requires x + n <= |a| && y + n <= |b| && forall j | x <= j < x + n :: a[j] == b[j - x + y]
    ensures a[x..x + n] == b[y..y + n]
  {
  }

  lemma {:induction false} LongerTableSameString(s: seq<byte>, t: seq<byte>)
    requires CString(s).Some?
    ensures CString(s + t) == CString(s)
  {
    if s[0] != 0 {
      LongerTableSameString(s[1..], t);
      assert (s + t)[1..] == s[1..] + t;
    }
  }

  lemma NameInLongerTable(names: seq<byte>, more: seq<byte>, at: nat)
    requires NameIn(names, at).Some?
    ensures NameIn(names + more, at) == NameIn(names, at)
  {
    LongerTableSameString(names[at..], more);
    assert (names + more)[at..] == names[at..] + more;
  }

  /** A section keeps its name. */
  lemma NamesAreKept(original: seq<byte>, count: nat, image: seq<byte>, id: seq<byte>, i: nat)
    requires Embedded(original, count, image, id) && i < count && SectionName(original, count, i).Some?
    ensures SectionName(image, count + 1, i) == SectionName(original, count, i)
  {
    hide KeepsBytes, KeepsHeaders, HoldsNote, Field, NameIn, NameTable, HeaderAt;
    HeaderFits(original, count, i);
    HeaderFits(image, count + 1, i);
    SameNameField(original, count, image, i);
    var at := Field(original, HeaderAt(original, i) + SHDR_NAME, 4);
    Associative(NameTable(original, count), NOTE_SECTION, [0]);
    NameInLongerTable(NameTable(original, count), NOTE_SECTION + [0], at);
  }

  lemma SameNameField(original: seq<byte>, count: nat, image: seq<byte>, i: nat)
    requires HasTable(original, count) && HasTable(image, count + 1) && KeepsHeaders(original, image, count) && i < count
    requires HeaderAt(original, i) + 64 <= |original| && HeaderAt(image, i) + 64 <= |image|
    ensures Field(image, HeaderAt(image, i) + SHDR_NAME, 4) == Field(original, HeaderAt(original, i) + SHDR_NAME, 4)
  {
    hide Little, HeaderAt;
    var x, y := HeaderAt(image, i), HeaderAt(original, i);
    SameByte(original, count, image, i, 0);
    SameByte(original, count, image, i, 1);
    SameByte(original, count, image, i, 2);
    SameByte(original, count, image, i, 3);
    assert image[x..x + 4] == [image[x], image[x + 1], image[x + 2], image[x + 3]];
    assert original[y..y + 4] == [original[y], original[y + 1], original[y + 2], original[y + 3]];
  }

  lemma SameByte(original: seq<byte>, count: nat, image: seq<byte>, i: nat, k: nat)
    requires HasTable(original, count) && HasTable(image, count + 1) && KeepsHeaders(original, image, count) && i < count
    requires k < SHDR_OFFSET && HeaderAt(original, i) + 64 <= |original| && HeaderAt(image, i) + 64 <= |image|
    ensures image[HeaderAt(image, i) + k] == original[HeaderAt(original, i) + k]
  {
    assert ByteOfHeader(image, count + 1, i, k) == ByteOfHeader(original, count, i, k);
  }

  /** The new section is called ".note.gnu.build-id" and its header's name offset is exact
      if and only if the old name table is shorter than 4 GiB. */
  lemma NoteIsNamed(original: seq<byte>, count: nat, image: seq<byte>, id: seq<byte>)
    requires Embedded(original, count, image, id)
    ensures 64 <= |original| && HeaderAt(original, NameTableIndex(original)) + 64 <= |original|
    ensures 64 <= |image| && HeaderAt(image, count) + 64 <= |image|
    ensures Field(image, HeaderAt(image, count) + SHDR_NAME, 4) == NameTableSize(original) <==>
            NameTableSize(original) < TWO_32
    ensures NameTableSize(original) < TWO_32 ==> SectionName(image, count + 1, count) == Some(NOTE_SECTION)
  {
    hide *;
    NoteNameField(original, count, image, id);
    RemainderIsExact(NameTableSize(original));
    if NameTableSize(original) < TWO_32 { LastSectionName(original, count, image); }
  }

  lemma NoteNameField(original: seq<byte>, count: nat, image: seq<byte>, id: seq<byte>)
    requires Embedded(original, count, image, id)
    ensures 64 <= |original| && HeaderAt(original, NameTableIndex(original)) + 64 <= |original|
    ensures 64 <= |image| && HeaderAt(image, count) + 64 <= |image|
    ensures HasNames(original, count) && ExtendsNames(original, image, count)
    ensures Field(image, HeaderAt(image, count) + SHDR_NAME, 4) == NameTableSize(original) % TWO_32
  {
    hide KeepsBytes, KeepsHeaders, ExtendsNames, IsNote, Field, HeaderAt;
  }

  lemma RemainderIsExact(n: nat)
    ensures n % TWO_32 == n <==> n < TWO_32
  {
  }

  lemma LastSectionName(original: seq<byte>, count: nat, image: seq<byte>)
    requires HasNames(original, count) && ExtendsNames(original, image, count) && HeaderAt(image, count) + 64 <= |image|
    requires Field(image, HeaderAt(image, count) + SHDR_NAME, 4) == NameTableSize(original)
    ensures SectionName(image, count + 1, count) == Some(NOTE_SECTION)
  {
    hide Field, HeaderAt, NameIn;
    var names := NameTable(original, count);
    Associative(names, NOTE_SECTION, [0]);
    LastName(names);
  }

  lemma LastName(names: seq<byte>)
    ensures NameIn(names + (NOTE_SECTION + [0]), |names|) == Some(NOTE_SECTION)
  {
    assert (names + (NOTE_SECTION + [0]))[|names|..] == NOTE_SECTION + [0];
    WholeString(NOTE_SECTION);
  }

  lemma {:induction false} WholeString(s: seq<byte>)
    requires 0 !in s
    ensures CString(s + [0]) == Some(s)
  {
    if s != [] {
      WholeString(s[1..]);
      assert (s + [0])[1..] == s[1..] + [0];
      assert s[0] in s && s == [s[0]] + s[1..];
    } else {
      assert s + [0] == [0];
    }
  }
}