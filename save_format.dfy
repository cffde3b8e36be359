/**
 * The save-format classifier of the Imperator world loader: the header
 * check, the minimum size, the scan of the first 64 KiB block for a ZIP
 * local file header, and the dispatch on the resulting save type.
 * The save file is a sequence of bytes; opening and reading it is not modelled.
 */
module SaveFormat {
  import opened Wrappers

  newtype byte = b: int | 0 <= b < 256

  /** Files shorter than this are rejected as too small. */
  const MinSaveSize: nat := 65536
  /** Size of the block that is re-read from offset 0 and scanned. */
  const BlockSize: nat := 65536
  /** The scan visits the offsets 0 .. ScanEnd - 1. */
  const ScanEnd: nat := 65533
  /** Little-endian signature of a ZIP local file header ("PK\x03\x04"),
      section 4.3.7 of PKWARE's APPNOTE.TXT. */
  const ZipLocalHeaderSignature: int := 0x04034B50
  /** The 16-bit little-endian value that must sit just before the signature. */
  const PrecedingWord: int := 4
  /** Where the external melter writes the plaintext of a compressed save. */
  const MeltedSavePath: string := "temp/melted_save.rome"

  datatype SaveType = Invalid | Plaintext | CompressedEncoded

  /** The InvalidDataException messages of the loader, one constructor each. */
  datatype SaveError =
    | UnknownSaveGame              // "Save game of unknown type!"
    | SaveTooSmall                 // "Save game seems a bit too small."
    | ShortBlockRead(bytesRead: nat) // "Read only N bytes."
    | UnknownSaveType              // "Unknown save type."

  /** The stream the world parser is given: the save itself, or the melter's output. */
  datatype SaveReader =
    | DebugModeSave(path: string)
    | MeltedSave(meltedFrom: string, path: string)

  function ToByte(c: char): byte
    requires c as int < 256
  {
    c as int as byte
  }

  /** The 10-byte buffer after reading (at most) 4 bytes from the start of the file;
      positions that were not read keep their initial zero. */
  function HeaderBuffer(save: seq<byte>): seq<byte>
  {
    seq(10, k requires 0 <= k < 10 => if k < 4 && k < |save| then save[k] else 0)
  }

  /** Bytes 0-2 of the header buffer read 'S', 'A', 'V'. */
  predicate HasMagic(save: seq<byte>)
  {
    var buffer := HeaderBuffer(save);
    buffer[0] == ToByte('S') && buffer[1] == ToByte('A') && buffer[2] == ToByte('V')
  }

  predicate IsLineEnd(ch: int)
  {
    ch == '\n' as int || ch == '\r' as int
  }

  /** The header-skip loop ends only if some byte after the first four is a line end. */
  ghost predicate HeaderLineEnds(save: seq<byte>)
  {
    exists k :: 4 <= k < |save| && IsLineEnd(save[k] as int)
  }

  /** BitConverter.ToUInt32 on a little-endian machine. */
  function LeU32(s: seq<byte>, i: int): nat
    requires 0 <= i && i + 4 <= |s|
  {
    s[i] as nat + 0x100 * s[i + 1] as nat + 0x1_0000 * s[i + 2] as nat + 0x100_0000 * s[i + 3] as nat
  }

  /** BitConverter.ToUInt16 on a little-endian machine. */
  function LeU16(s: seq<byte>, i: int): nat
    requires 0 <= i && i + 2 <= |s|
  {
    s[i] as nat + 0x100 * s[i + 1] as nat
  }

  /** The scan's test at offset i: the signature dword at i and the word 4 at i - 2. */
  ghost predicate SignatureAt(block: seq<byte>, i: int)
  {
    2 <= i && i + 4 <= |block| && LeU32(block, i) == ZipLocalHeaderSignature && LeU16(block, i - 2) == PrecedingWord
  }

  ghost predicate ContainsSignature(block: seq<byte>)
  {
    exists i :: 0 <= i < ScanEnd && SignatureAt(block, i)
  }

  /** The save type the scan of a block settles on. */
  ghost function Classify(block: seq<byte>): SaveType
  {
    if ContainsSignature(block) then CompressedEncoded else Plaintext
  }

  /** What verifying a save with these bytes does, for a save whose header
      skip ends (one with the magic has a line end at offset 4 or later;
      otherwise the skip never returns): the error it throws, or the save
      type it leaves behind. `bytesRead` is what the read of the first block
      returned. */
  ghost function Verification(save: seq<byte>, bytesRead: nat): Result<SaveType, SaveError>
  {
    if !HasMagic(save) then Failure(UnknownSaveGame)
    else if |save| < MinSaveSize then Failure(SaveTooSmall)
    else if bytesRead < BlockSize then Failure(ShortBlockRead(bytesRead))
    else Success(Classify(save[..BlockSize]))
  }

  /** The dispatch on the save type: a plaintext save is read directly, a
      compressed one is melted first and its output is read. */
  function ProcessSave(saveType: SaveType, savePath: string): Result<SaveReader, SaveError>
  {
    match saveType
    case Plaintext => Success(DebugModeSave(savePath))
    case CompressedEncoded => Success(MeltedSave(savePath, MeltedSavePath))
    case Invalid => Failure(UnknownSaveType)
  }

  /** The six bytes the scan looks for: the word 4, then "PK\x03\x04". */
  ghost predicate MarkerAt(block: seq<byte>, i: int)
  {
    2 <= i && i + 4 <= |block|
    && block[i - 2] == 4 && block[i - 1] == 0
    && block[i] == 0x50 && block[i + 1] == 0x4B && block[i + 2] == 0x03 && block[i + 3] == 0x04
  }

  lemma SignatureBytes(s: seq<byte>, i: int)
    requires 0 <= i && i + 4 <= |s|
    ensures LeU32(s, i) == ZipLocalHeaderSignature <==>
              s[i] == 0x50 && s[i + 1] == 0x4B && s[i + 2] == 0x03 && s[i + 3] == 0x04
  {
  }

  lemma WordBytes(s: seq<byte>, i: int)
    requires 0 <= i && i + 2 <= |s|
    ensures LeU16(s, i) == PrecedingWord <==> s[i] == 4 && s[i + 1] == 0
  {
  }

  /** The scan's dword test is false at offsets 0 and 1 of a block that starts
      with the magic, so the word at i - 2 is never read out of range. */
  lemma MagicExcludesEarlySignature(s: seq<byte>)
    requires |s| >= 5
    requires s[0] == ToByte('S') && s[1] == ToByte('A')
    ensures LeU32(s, 0) != ZipLocalHeaderSignature && LeU32(s, 1) != ZipLocalHeaderSignature
  {
    SignatureBytes(s, 0);
    SignatureBytes(s, 1);
  }

  /** The classification in terms of raw bytes: compressed exactly when the
      six-byte marker 04 00 50 4B 03 04 starts at some offset i - 2 with
      2 <= i < ScanEnd. */
  lemma {:induction false} ClassifyIsMarkerSearch(block: seq<byte>)
    requires |block| == BlockSize
    ensures Classify(block) == CompressedEncoded <==> exists i :: 0 <= i < ScanEnd && MarkerAt(block, i)
  {
    if ContainsSignature(block) {
      var i :| 0 <= i < ScanEnd && SignatureAt(block, i);
      SignatureBytes(block, i);
      WordBytes(block, i - 2);
      assert MarkerAt(block, i);
    }
    if exists i :: 0 <= i < ScanEnd && MarkerAt(block, i) {
      var i :| 0 <= i < ScanEnd && MarkerAt(block, i);
      SignatureBytes(block, i);
      WordBytes(block, i - 2);
      assert SignatureAt(block, i);
    }
  }

  /** The magic is the first three bytes of the file being 'S', 'A', 'V'; a file
      of fewer than three bytes never has it. */
  lemma MagicIsPrefix(save: seq<byte>)
    ensures HasMagic(save) <==>
              |save| >= 3 && save[0] == ToByte('S') && save[1] == ToByte('A') && save[2] == ToByte('V')
  {
  }

  /** For a save whose header skip ends: the magic is checked before the
      size, the size before the block read, and a save that passes all three
      is classified as plaintext or compressed, never left invalid; its
      dispatch therefore never throws, and it reads the save itself when no
      ZIP header was found and the melter's output otherwise. */
  lemma VerificationOrder(save: seq<byte>, bytesRead: nat, savePath: string)
    requires HasMagic(save) ==> HeaderLineEnds(save)
    ensures !HasMagic(save) ==> Verification(save, bytesRead) == Failure(UnknownSaveGame)
    ensures HasMagic(save) && |save| < MinSaveSize ==> Verification(save, bytesRead) == Failure(SaveTooSmall)
    ensures Verification(save, bytesRead).Success? <==>
              HasMagic(save) && |save| >= MinSaveSize && bytesRead >= BlockSize
    ensures Verification(save, bytesRead).Success? ==>
              Verification(save, bytesRead).value != Invalid
              && ProcessSave(Verification(save, bytesRead).value, savePath).Success?
    ensures Verification(save, bytesRead).Success? ==>
              ProcessSave(Verification(save, bytesRead).value, savePath).value ==
                if ContainsSignature(save[..BlockSize]) then MeltedSave(savePath, MeltedSavePath)
                else DebugModeSave(savePath)
  {
  }
}
