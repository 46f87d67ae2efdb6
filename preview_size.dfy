/** The two preview size classes and their textual names. The Go type is an
    int enumeration whose String and Parse methods are generated from the
    names listed in its ENUM comment; the names are spelled out here as the
    bytes of "thumb" and "big". */
module PreviewSizes {
  import opened Common

  datatype PreviewSize = Thumb | Big

  /** "thumb" */
  const ThumbName: seq<Byte> := [0x74, 0x68, 0x75, 0x6d, 0x62]
  /** "big" */
  const BigName: seq<Byte> := [0x62, 0x69, 0x67]

  /** The generated String method. */
  function SizeName(size: PreviewSize): (n: seq<Byte>)
    ensures n == ThumbName || n == BigName
    ensures n == ThumbName <==> size == Thumb
  {
    match size
    case Thumb => ThumbName
    case Big => BigName
  }

  /** The generated Parse function: an exact match on one of the names. */
  function ParsePreviewSize(token: seq<Byte>): (r: Result<PreviewSize>)
    ensures r.Success? ==> SizeName(r.value) == token
    ensures r.Failure? ==>
              r.error == InvalidSize(token) && token != SizeName(Thumb) && token != SizeName(Big)
  {
    if token == ThumbName then Success(Thumb)
    else if token == BigName then Success(Big)
    else Failure(InvalidSize(token))
  }

  /** Parsing a size's own name gives back that size. */
  lemma ParseSizeName(size: PreviewSize)
    ensures ParsePreviewSize(SizeName(size)) == Success(size)
  {
  }
}
