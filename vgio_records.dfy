/** The records that the `vgio` decoders hand to the tools, taken as given
    values: the decoders themselves are not part of this model. */
module VgioRecords {

  type Bytes = seq<bv8>

  /** A decoded miptexture: name, size, the four level offsets and the
      concatenated pixels of all levels. */
  datatype Miptexture = Miptexture(name: string, width: nat, height: nat, offsets: seq<nat>, pixels: Bytes)

  /** Lump type codes of a WAD directory entry, as the listing table names them. */
  const NoneType: int := 0
  const LabelType: int := 1
  const LumpType: int := 64
  const QtexType: int := 65
  const QpicType: int := 66
  const SoundType: int := 67
  const MiptexType: int := 68

  /** Compression of a WAD entry; the tools only write uncompressed entries. */
  datatype Compression = NoCompression | OtherCompression(code: int)

  /** A WAD directory entry (`wad.WadInfo`). */
  datatype WadInfo = WadInfo(filename: string, fileSize: nat, diskSize: nat, compression: Compression, lumpType: int)

  /** A PAK directory entry (`pak.PakInfo`). */
  datatype PakInfo = PakInfo(filename: string, fileSize: nat)
}
