/** The media ID: a length-prefixed frame with a separate reader, inside an opaque envelope
    (gzip and URL-safe base64). */
module MediaID {
  import opened Wrappers

  type Byte = n: int | 0 <= n < 256

  type Bytes = seq<Byte>

  type UInt64 = n: int | 0 <= n < 0x1_0000_0000_0000_0000

  /** Strings are their bytes. */
  datatype Info = Info(
    url: Bytes,
    directPath: Bytes,
    mediaKey: Bytes,
    fileSHA256: Bytes,
    fileEncSHA256: Bytes,
    mimeType: Bytes,
    fileName: Bytes,
    mediaType: Bytes,
    fileLength: UInt64)

  datatype Field = URL | DirectPath | MediaKey | FileSHA256 | FileEncSHA256 | MimeType | FileName | MediaType

  datatype EncodeError = URLOrDirectPathTooLong | FieldTooLong

  datatype DecodeError =
    | BadEnvelope
    | NoVersion
    | UnsupportedVersion(version: Byte)
    | NoLength(field: Field)
    | NoFileLength
    | NoData(field: Field)

  // ---------- little endian ----------

  function Pow256(n: nat): (p: int)
    ensures p > 0
  {
    if n == 0 then 1 else 256 * Pow256(n - 1)
  }

  function ToLE(n: nat, v: nat): (s: Bytes)
    ensures |s| == n
  {
    if n == 0 then [] else [v % 256] + ToLE(n - 1, v / 256)
  }

  function FromLE(s: Bytes): (v: nat)
    ensures v < Pow256(|s|)
  {
    if s == [] then 0 else s[0] + 256 * FromLE(s[1..])
  }

  lemma {:induction false} FromToLE(n: nat, v: nat)
    requires v < Pow256(n)
    ensures FromLE(ToLE(n, v)) == v
  {
    if n > 0 {
      FromToLE(n - 1, v / 256);
      assert ToLE(n, v)[1..] == ToLE(n - 1, v / 256);
    }
  }

  lemma {:induction false} ToFromLE(s: Bytes)
    ensures ToLE(|s|, FromLE(s)) == s
  {
    if s != [] {
      ToFromLE(s[1..]);
      assert FromLE(s) % 256 == s[0] && FromLE(s) / 256 == FromLE(s[1..]);
    }
  }

  lemma Widths()
    ensures Pow256(2) == 65536 && Pow256(8) == 0x1_0000_0000_0000_0000
  {
    assert Pow256(1) == 256 && Pow256(2) == 256 * Pow256(1);
    assert Pow256(4) == 256 * 256 * Pow256(2);
    assert Pow256(6) == 256 * 256 * Pow256(4);
    assert Pow256(8) == 256 * 256 * Pow256(6);
  }

  // ---------- the frame ----------

  predicate Fits(i: Info) {
    && |i.url| <= 65535 && |i.directPath| <= 65535
    && |i.mediaKey| <= 255 && |i.fileSHA256| <= 255 && |i.fileEncSHA256| <= 255
    && |i.mimeType| <= 255 && |i.fileName| <= 255 && |i.mediaType| <= 255
  }

  const HEADER_SIZE := 19

  function Header(i: Info): (h: Bytes)
    requires Fits(i)
    ensures |h| == HEADER_SIZE
  {
    [1] + ToLE(2, |i.url|) + ToLE(2, |i.directPath|)
    + [|i.mediaKey|, |i.fileSHA256|, |i.fileEncSHA256|, |i.mimeType|, |i.fileName|, |i.mediaType|]
    + ToLE(8, i.fileLength)
  }

  function Body(i: Info): Bytes {
    i.url + i.directPath + i.mediaKey + i.fileSHA256 + i.fileEncSHA256 + i.mimeType + i.fileName + i.mediaType
  }

  function Frame(i: Info): Bytes
    requires Fits(i)
  {
    Header(i) + Body(i)
  }

  /** bytes.Buffer */
  class Buffer {
    var data: Bytes

    constructor ()
      ensures data == []
    {
      data := [];
    }

    method Write(s: Bytes)
      modifies this
      ensures data == old(data) + s
    {
      data := data + s;
    }

    method WriteLE(width: nat, v: nat)
      modifies this
      ensures data == old(data) + ToLE(width, v)
    {
      var rest := v;
      for k := 0 to width
        invariant data + ToLE(width - k, rest) == old(data) + ToLE(width, v)
      {
        data := data + [rest % 256];
        rest := rest / 256;
      }
    }
  }

  /** EncodeMediaID up to the compression: the version comes first, the lengths are checked before any is written. */
  method EncodeFrame(i: Info) returns (r: Result<Bytes, EncodeError>)
    ensures r == if |i.url| > 65535 || |i.directPath| > 65535 then Err(URLOrDirectPathTooLong)
                 else if !Fits(i) then Err(FieldTooLong)
                 else Ok(Frame(i))
  {
    var buf := new Buffer();
    buf.Write([1]);
    if |i.url| > 65535 || |i.directPath| > 65535 {
      return Err(URLOrDirectPathTooLong);
    }
    if |i.mediaKey| > 255 || |i.fileSHA256| > 255 || |i.fileEncSHA256| > 255
       || |i.mimeType| > 255 || |i.fileName| > 255 || |i.mediaType| > 255 {
      return Err(FieldTooLong);
    }
    WriteLengths(buf, i);
    WriteData(buf, i);
    r := Ok(buf.data);
  }

  method WriteLengths(buf: Buffer, i: Info)
    requires Fits(i) && buf.data == [1]
    modifies buf
    ensures buf.data == Header(i)
  {
    buf.WriteLE(2, |i.url|);
    buf.WriteLE(2, |i.directPath|);
    ghost var before := buf.data;
    buf.Write([|i.mediaKey|]);
    buf.Write([|i.fileSHA256|]);
    buf.Write([|i.fileEncSHA256|]);
    buf.Write([|i.mimeType|]);
    buf.Write([|i.fileName|]);
    buf.Write([|i.mediaType|]);
    assert buf.data ==
           before + [|i.mediaKey|, |i.fileSHA256|, |i.fileEncSHA256|, |i.mimeType|, |i.fileName|, |i.mediaType|];
    buf.WriteLE(8, i.fileLength);
  }

  method WriteData(buf: Buffer, i: Info)
    modifies buf
    ensures buf.data == old(buf.data) + Body(i)
  {
    ghost var h := buf.data;
    buf.Write(i.url);
    buf.Write(i.directPath);
    assert buf.data == h + (i.url + i.directPath);
    buf.Write(i.mediaKey);
    buf.Write(i.fileSHA256);
    assert buf.data == h + (i.url + i.directPath + i.mediaKey + i.fileSHA256);
    buf.Write(i.fileEncSHA256);
    buf.Write(i.mimeType);
    assert buf.data == h + (i.url + i.directPath + i.mediaKey + i.fileSHA256 + i.fileEncSHA256 + i.mimeType);
    buf.Write(i.fileName);
    buf.Write(i.mediaType);
  }

  // ---------- the reader ----------

  /** Where each data field ends, from the lengths in the header. */
  datatype Layout = Layout(url: nat, directPath: nat, mediaKey: nat, fileSHA256: nat, fileEncSHA256: nat,
                           mimeType: nat, fileName: nat, mediaType: nat)

  function LayoutOf(s: Bytes): (l: Layout)
    requires |s| >= HEADER_SIZE
    ensures Ordered(l)
  {
    var a := HEADER_SIZE + FromLE(s[1..3]);
    var b := a + FromLE(s[3..5]);
    var c := b + s[5];
    var d := c + s[6];
    var e := d + s[7];
    var f := e + s[8];
    var g := f + s[9];
    Layout(a, b, c, d, e, f, g, g + s[10])
  }

  /** What a byte string decodes to, by position: the first field that does not fit names the error. */
  function Decode(s: Bytes): Result<Info, DecodeError> {
    var n := |s|;
    if n == 0 then Err(NoVersion)
    else if s[0] != 1 then Err(UnsupportedVersion(s[0]))
    else if n < 3 then Err(NoLength(URL))
    else if n < 5 then Err(NoLength(DirectPath))
    else if n < 6 then Err(NoLength(MediaKey))
    else if n < 7 then Err(NoLength(FileSHA256))
    else if n < 8 then Err(NoLength(FileEncSHA256))
    else if n < 9 then Err(NoLength(MimeType))
    else if n < 10 then Err(NoLength(FileName))
    else if n < 11 then Err(NoLength(MediaType))
    else if n < HEADER_SIZE then Err(NoFileLength)
    else DecodeData(s, LayoutOf(s))
  }

  ghost predicate Ordered(l: Layout) {
    HEADER_SIZE <= l.url <= l.directPath <= l.mediaKey <= l.fileSHA256 <= l.fileEncSHA256 <= l.mimeType
    <= l.fileName <= l.mediaType
  }

  function DecodeData(s: Bytes, l: Layout): Result<Info, DecodeError>
    requires |s| >= HEADER_SIZE && Ordered(l)
  {
    var n := |s|;
    if n < l.url then Err(NoData(URL))
    else if n < l.directPath then Err(NoData(DirectPath))
    else if n < l.mediaKey then Err(NoData(MediaKey))
    else if n < l.fileSHA256 then Err(NoData(FileSHA256))
    else if n < l.fileEncSHA256 then Err(NoData(FileEncSHA256))
    else if n < l.mimeType then Err(NoData(MimeType))
    else if n < l.fileName then Err(NoData(FileName))
    else if n < l.mediaType then Err(NoData(MediaType))
    else Ok(InfoAt(s, l))
  }

  function InfoAt(s: Bytes, l: Layout): Info
    requires |s| >= HEADER_SIZE && Ordered(l) && l.mediaType <= |s|
  {
    Widths();
    Info(s[HEADER_SIZE..l.url], s[l.url..l.directPath], s[l.directPath..l.mediaKey], s[l.mediaKey..l.fileSHA256],
         s[l.fileSHA256..l.fileEncSHA256], s[l.fileEncSHA256..l.mimeType], s[l.mimeType..l.fileName],
         s[l.fileName..l.mediaType], FromLE(s[11..19]))
  }

  /** bytes.Reader */
  class Reader {
    const data: Bytes
    var pos: nat

    ghost predicate Valid()
      reads this
    {
      pos <= |data|
    }

    constructor (data: Bytes)
      ensures Valid() && this.data == data && pos == 0
    {
      this.data, pos := data, 0;
    }

    /** io.ReadFull into a buffer of n bytes; None when the input ends first. */
    method ReadFull(n: nat) returns (r: Option<Bytes>)
      requires Valid()
      modifies this
      ensures Valid()
      ensures r.Some? <==> old(pos) + n <= |data|
      ensures r.Some? ==> pos == old(pos) + n && r.value == data[old(pos)..pos]
    {
      if pos + n > |data| {
        pos := |data|;
        return None;
      }
      r := Some(data[pos..pos + n]);
      pos := pos + n;
    }

    /** binary.Read of a little-endian integer. */
    method ReadLE(width: nat) returns (r: Option<nat>)
      requires Valid()
      modifies this
      ensures Valid()
      ensures r.Some? <==> old(pos) + width <= |data|
      ensures r.Some? ==> pos == old(pos) + width && r.value == FromLE(data[old(pos)..pos])
    {
      var b := ReadFull(width);
      r := if b.None? then None else Some(FromLE(b.value));
    }

    method ReadByte() returns (r: Option<Byte>)
      requires Valid()
      modifies this
      ensures Valid()
      ensures r.Some? <==> old(pos) < |data|
      ensures r.Some? ==> pos == old(pos) + 1 && r.value == data[old(pos)]
    {
      if pos >= |data| {
        return None;
      }
      r := Some(data[pos]);
      pos := pos + 1;
    }
  }

  /** The lengths read from a header, and the file length. */
  datatype Lengths = Lengths(url: nat, directPath: nat, mediaKey: nat, fileSHA256: nat, fileEncSHA256: nat,
                             mimeType: nat, fileName: nat, mediaType: nat, fileLength: nat)

  ghost predicate LaysOut(l: Layout, h: Lengths) {
    && l.url == HEADER_SIZE + h.url && l.directPath == l.url + h.directPath
    && l.mediaKey == l.directPath + h.mediaKey && l.fileSHA256 == l.mediaKey + h.fileSHA256
    && l.fileEncSHA256 == l.fileSHA256 + h.fileEncSHA256 && l.mimeType == l.fileEncSHA256 + h.mimeType
    && l.fileName == l.mimeType + h.fileName && l.mediaType == l.fileName + h.mediaType
  }

  method ReadLengths(buf: Reader) returns (r: Result<Lengths, DecodeError>)
    requires buf.Valid() && buf.pos == 1 && |buf.data| > 0 && buf.data[0] == 1
    modifies buf
    ensures buf.Valid()
    ensures r.Err? ==> |buf.data| < HEADER_SIZE && Decode(buf.data) == Err(r.error)
    ensures r.Ok? ==>
              && |buf.data| >= HEADER_SIZE && buf.pos == HEADER_SIZE
              && LaysOut(LayoutOf(buf.data), r.value) && r.value.fileLength == FromLE(buf.data[11..19])
  {
    var urlLen := buf.ReadLE(2);
    if urlLen.None? {
      return Err(NoLength(URL));
    }
    var directPathLen := buf.ReadLE(2);
    if directPathLen.None? {
      return Err(NoLength(DirectPath));
    }
    var mediaKeyLen := buf.ReadByte();
    if mediaKeyLen.None? {
      return Err(NoLength(MediaKey));
    }
    var fileSHA256Len := buf.ReadByte();
    if fileSHA256Len.None? {
      return Err(NoLength(FileSHA256));
    }
    var fileEncSHA256Len := buf.ReadByte();
    if fileEncSHA256Len.None? {
      return Err(NoLength(FileEncSHA256));
    }
    var mimeTypeLen := buf.ReadByte();
    if mimeTypeLen.None? {
      return Err(NoLength(MimeType));
    }
    var fileNameLen := buf.ReadByte();
    if fileNameLen.None? {
      return Err(NoLength(FileName));
    }
    var mediaTypeLen := buf.ReadByte();
    if mediaTypeLen.None? {
      return Err(NoLength(MediaType));
    }
    var fileLength := buf.ReadLE(8);
    if fileLength.None? {
      return Err(NoFileLength);
    }
    r := Ok(Lengths(urlLen.value, directPathLen.value, mediaKeyLen.value, fileSHA256Len.value, fileEncSHA256Len.value,
                    mimeTypeLen.value, fileNameLen.value, mediaTypeLen.value, fileLength.value));
  }

  method ReadData(buf: Reader, h: Lengths, ghost l: Layout) returns (r: Result<Info, DecodeError>)
    requires buf.Valid() && buf.pos == HEADER_SIZE
    requires LaysOut(l, h) && Ordered(l) && h.fileLength == FromLE(buf.data[11..19])
    modifies buf
    ensures buf.Valid()
    ensures r == DecodeData(buf.data, l)
  {
    var url := buf.ReadFull(h.url);
    if url.None? {
      return Err(NoData(URL));
    }
    assert buf.pos == l.url;
    var directPath := buf.ReadFull(h.directPath);
    if directPath.None? {
      return Err(NoData(DirectPath));
    }
    assert buf.pos == l.directPath;
    var mediaKey := buf.ReadFull(h.mediaKey);
    if mediaKey.None? {
      return Err(NoData(MediaKey));
    }
    assert buf.pos == l.mediaKey;
    var fileSHA256 := buf.ReadFull(h.fileSHA256);
    if fileSHA256.None? {
      return Err(NoData(FileSHA256));
    }
    assert buf.pos == l.fileSHA256;
    var fileEncSHA256 := buf.ReadFull(h.fileEncSHA256);
    if fileEncSHA256.None? {
      return Err(NoData(FileEncSHA256));
    }
    assert buf.pos == l.fileEncSHA256;
    var mimeType := buf.ReadFull(h.mimeType);
    if mimeType.None? {
      return Err(NoData(MimeType));
    }
    assert buf.pos == l.mimeType;
    var fileName := buf.ReadFull(h.fileName);
    if fileName.None? {
      return Err(NoData(FileName));
    }
    assert buf.pos == l.fileName;
    var mediaType := buf.ReadFull(h.mediaType);
    if mediaType.None? {
      return Err(NoData(MediaType));
    }
    assert buf.pos == l.mediaType;
    Widths();
    r := Ok(Info(url.value, directPath.value, mediaKey.value, fileSHA256.value, fileEncSHA256.value,
                 mimeType.value, fileName.value, mediaType.value, h.fileLength));
    assert r.value == InfoAt(buf.data, l);
  }

  /** DecodeMediaID after the decompression. */
  method DecodeFrame(s: Bytes) returns (r: Result<Info, DecodeError>)
    ensures r == Decode(s)
  {
    var buf := new Reader(s);
    var version := buf.ReadByte();
    if version.None? {
      return Err(NoVersion);
    }
    if version.value != 1 {
      return Err(UnsupportedVersion(version.value));
    }
    var lengths := ReadLengths(buf);
    if lengths.Err? {
      return Err(lengths.error);
    }
    r := ReadData(buf, lengths.value, LayoutOf(s));
  }

  // ---------- what the code is ----------

  lemma HeaderInPieces(s: Bytes)
    requires |s| >= HEADER_SIZE && s[0] == 1
    ensures s[..HEADER_SIZE] == [1] + s[1..3] + s[3..5] + [s[5], s[6], s[7], s[8], s[9], s[10]] + s[11..19]
  {
  }

  /** The lengths in a decoded frame's header are those of its fields, so its header is the first 19 bytes. */
  lemma HeaderIsPrefix(s: Bytes)
    requires |s| >= HEADER_SIZE && s[0] == 1 && LayoutOf(s).mediaType <= |s|
    ensures Fits(InfoAt(s, LayoutOf(s))) && Header(InfoAt(s, LayoutOf(s))) == s[..HEADER_SIZE]
  {
    var i := InfoAt(s, LayoutOf(s));
    Widths();
    ToFromLE(s[1..3]);
    ToFromLE(s[3..5]);
    ToFromLE(s[11..19]);
    assert |i.url| == FromLE(s[1..3]) && |i.directPath| == FromLE(s[3..5]);
    HeaderInPieces(s);
  }

  lemma BodyIsSlice(s: Bytes, l: Layout)
    requires |s| >= HEADER_SIZE && Ordered(l) && l.mediaType <= |s|
    ensures Body(InfoAt(s, l)) == s[HEADER_SIZE..l.mediaType]
  {
    var i := InfoAt(s, l);
    assert i.url + i.directPath == s[HEADER_SIZE..l.directPath];
    assert s[HEADER_SIZE..l.directPath] + i.mediaKey == s[HEADER_SIZE..l.mediaKey];
    assert s[HEADER_SIZE..l.mediaKey] + i.fileSHA256 == s[HEADER_SIZE..l.fileSHA256];
    assert s[HEADER_SIZE..l.fileSHA256] + i.fileEncSHA256 == s[HEADER_SIZE..l.fileEncSHA256];
    assert s[HEADER_SIZE..l.fileEncSHA256] + i.mimeType == s[HEADER_SIZE..l.mimeType];
    assert s[HEADER_SIZE..l.mimeType] + i.fileName == s[HEADER_SIZE..l.fileName];
    assert s[HEADER_SIZE..l.fileName] + i.mediaType == s[HEADER_SIZE..l.mediaType];
  }

  /** Any accepted byte string starts with the frame of its result. */
  lemma AcceptedStartsWithFrame(s: Bytes)
    requires Decode(s).Ok?
    ensures Fits(Decode(s).value) && Frame(Decode(s).value) <= s
  {
    HeaderIsPrefix(s);
    BodyIsSlice(s, LayoutOf(s));
    var l := LayoutOf(s);
    assert s[..l.mediaType] == s[..HEADER_SIZE] + s[HEADER_SIZE..l.mediaType];
  }

  lemma LayoutOfFrame(i: Info, s: Bytes)
    requires Fits(i) && Header(i) <= s
    ensures |s| >= HEADER_SIZE && s[0] == 1 && FromLE(s[11..19]) == i.fileLength
    ensures var l := LayoutOf(s);
            && l.url == HEADER_SIZE + |i.url| && l.directPath == l.url + |i.directPath|
            && l.mediaKey == l.directPath + |i.mediaKey| && l.fileSHA256 == l.mediaKey + |i.fileSHA256|
            && l.fileEncSHA256 == l.fileSHA256 + |i.fileEncSHA256| && l.mimeType == l.fileEncSHA256 + |i.mimeType|
            && l.fileName == l.mimeType + |i.fileName| && l.mediaType == l.fileName + |i.mediaType|
  {
    Widths();
    FromToLE(2, |i.url|);
    FromToLE(2, |i.directPath|);
    FromToLE(8, i.fileLength);
    var h := Header(i);
    assert s[1..3] == h[1..3] == ToLE(2, |i.url|);
    assert s[3..5] == h[3..5] == ToLE(2, |i.directPath|);
    assert s[11..19] == h[11..19] == ToLE(8, i.fileLength);
    assert forall k | 5 <= k < 11 :: s[k] == h[k];
  }

  /** Reading back a frame, whatever follows it. */
  lemma DecodeOfFrame(i: Info, s: Bytes)
    requires Fits(i) && Frame(i) <= s
    ensures Decode(s) == Ok(i)
  {
    assert Header(i) <= s by {
      assert Header(i) <= Frame(i);
    }
    LayoutOfFrame(i, s);
    assert s[HEADER_SIZE..LayoutOf(s).mediaType] == Body(i) by {
      assert s[..|Frame(i)|] == Frame(i);
      assert Frame(i)[HEADER_SIZE..] == Body(i);
    }
    InfoAtBody(i, s, LayoutOf(s));
  }

  lemma InfoAtBody(i: Info, s: Bytes, l: Layout)
    requires |s| >= HEADER_SIZE && Ordered(l) && l.mediaType <= |s|
    requires s[HEADER_SIZE..l.mediaType] == Body(i)
    requires l.url == HEADER_SIZE + |i.url| && l.directPath == l.url + |i.directPath|
    requires l.mediaKey == l.directPath + |i.mediaKey| && l.fileSHA256 == l.mediaKey + |i.fileSHA256|
    requires l.fileEncSHA256 == l.fileSHA256 + |i.fileEncSHA256| && l.mimeType == l.fileEncSHA256 + |i.mimeType|
    requires l.fileName == l.mimeType + |i.fileName| && l.mediaType == l.fileName + |i.mediaType|
    ensures InfoAt(s, l) == i.(fileLength := InfoAt(s, l).fileLength)
  {
    BodyIsSlice(s, l);
    BodyInjective(i, InfoAt(s, l));
  }

  lemma ConcatInjective(a: Bytes, x: Bytes, b: Bytes, y: Bytes)
    requires |x| == |y| && a + x == b + y
    ensures a == b && x == y
  {
    assert a == (a + x)[..|a|] && b == (b + y)[..|a|];
    assert x == (a + x)[|a|..] && y == (b + y)[|a|..];
  }

  lemma BodyInjective(i: Info, j: Info)
    requires Body(i) == Body(j)
    requires |i.directPath| == |j.directPath| && |i.mediaKey| == |j.mediaKey| && |i.fileSHA256| == |j.fileSHA256|
    requires |i.fileEncSHA256| == |j.fileEncSHA256| && |i.mimeType| == |j.mimeType|
    requires |i.fileName| == |j.fileName| && |i.mediaType| == |j.mediaType|
    ensures i == j.(fileLength := i.fileLength)
  {
    var (a2, b2) := (i.url + i.directPath, j.url + j.directPath);
    var (a3, b3) := (a2 + i.mediaKey, b2 + j.mediaKey);
    var (a4, b4) := (a3 + i.fileSHA256, b3 + j.fileSHA256);
    var (a5, b5) := (a4 + i.fileEncSHA256, b4 + j.fileEncSHA256);
    var (a6, b6) := (a5 + i.mimeType, b5 + j.mimeType);
    var (a7, b7) := (a6 + i.fileName, b6 + j.fileName);
    ConcatInjective(a7, i.mediaType, b7, j.mediaType);
    ConcatInjective(a6, i.fileName, b6, j.fileName);
    ConcatInjective(a5, i.mimeType, b5, j.mimeType);
    ConcatInjective(a4, i.fileEncSHA256, b4, j.fileEncSHA256);
    ConcatInjective(a3, i.fileSHA256, b3, j.fileSHA256);
    ConcatInjective(a2, i.mediaKey, b2, j.mediaKey);
    ConcatInjective(i.url, i.directPath, j.url, j.directPath);
  }

  /** The decoder accepts exactly the strings that start with a frame, and returns that frame's info:
      the round trip, and its converse. */
  lemma DecodeIff(s: Bytes, i: Info)
    ensures Decode(s) == Ok(i) <==> Fits(i) && Frame(i) <= s
  {
    if Fits(i) && Frame(i) <= s {
      DecodeOfFrame(i, s);
    }
    if Decode(s) == Ok(i) {
      AcceptedStartsWithFrame(s);
    }
  }

  /** Every proper prefix of a frame is rejected. */
  lemma FramesPrefixFree(i: Info, p: Bytes)
    requires Fits(i) && p < Frame(i)
    ensures Decode(p).Err?
  {
    if Decode(p).Ok? {
      var j := Decode(p).value;
      AcceptedStartsWithFrame(p);
      DecodeOfFrame(j, Frame(i));
      DecodeOfFrame(i, Frame(i));
      assert false;
    }
  }

  /** The error for a frame cut in its header, by how many bytes are left. */
  const CUT_HEADER: seq<DecodeError> := [
    NoVersion, NoLength(URL), NoLength(URL), NoLength(DirectPath), NoLength(DirectPath), NoLength(MediaKey),
    NoLength(FileSHA256), NoLength(FileEncSHA256), NoLength(MimeType), NoLength(FileName), NoLength(MediaType),
    NoFileLength, NoFileLength, NoFileLength, NoFileLength, NoFileLength, NoFileLength, NoFileLength, NoFileLength]

  function FieldData(i: Info, f: Field): Bytes {
    match f
    case URL => i.url
    case DirectPath => i.directPath
    case MediaKey => i.mediaKey
    case FileSHA256 => i.fileSHA256
    case FileEncSHA256 => i.fileEncSHA256
    case MimeType => i.mimeType
    case FileName => i.fileName
    case MediaType => i.mediaType
  }

  /** Where a field's data starts: after the header and the data of the fields before. */
  function DataStart(i: Info, f: Field): nat {
    var media := 19 + |i.url| + |i.directPath|;
    var hashes := media + |i.mediaKey| + |i.fileSHA256| + |i.fileEncSHA256|;
    match f
    case URL => 19
    case DirectPath => 19 + |i.url|
    case MediaKey => media
    case FileSHA256 => media + |i.mediaKey|
    case FileEncSHA256 => media + |i.mediaKey| + |i.fileSHA256|
    case MimeType => hashes
    case FileName => hashes + |i.mimeType|
    case MediaType => hashes + |i.mimeType| + |i.fileName|
  }

  /** Which error a truncated frame gives: the one of the length or the data in which it ends. Any other first byte
      than the version's is named. */
  lemma TruncatedFrame(i: Info, p: Bytes, f: Field)
    requires Fits(i) && p < Frame(i)
    ensures |p| < 19 ==> Decode(p) == Err(CUT_HEADER[|p|])
    ensures |p| >= 19 ==>
              && Decode(p).Err? && Decode(p).error.NoData?
              && (Decode(p) == Err(NoData(f)) <==> DataStart(i, f) <= |p| < DataStart(i, f) + |FieldData(i, f)|)
  {
    if |p| >= 19 {
      assert Header(i) <= p by {
        assert Header(i) <= Frame(i);
      }
      LayoutOfFrame(i, p);
    } else if p != [] {
      assert p[0] == Frame(i)[0] == 1;
    }
  }

  lemma OtherVersionNamed(s: Bytes)
    requires s != [] && s[0] != 1
    ensures Decode(s) == Err(UnsupportedVersion(s[0]))
  {
  }

  function At(s: Bytes, k: nat): int
    requires k < |s|
  {
    s[k]
  }

  lemma LowByteFirst(a: Byte, rest: Bytes)
    ensures FromLE([a] + rest) == a + 256 * FromLE(rest)
  {
    assert ([a] + rest)[1..] == rest;
  }

  lemma ByteAt(s: Bytes, k: nat, end: nat)
    requires k < end <= |s|
    ensures FromLE(s[k..end]) == At(s, k) + 256 * FromLE(s[k + 1..end])
  {
    assert s[k..end] == [s[k]] + s[k + 1..end];
    LowByteFirst(s[k], s[k + 1..end]);
  }

  lemma TwoBytes(s: Bytes, k: nat)
    requires k + 2 <= |s|
    ensures FromLE(s[k..k + 2]) == At(s, k) + 256 * At(s, k + 1)
  {
    ByteAt(s, k, k + 2);
    ByteAt(s, k + 1, k + 2);
    assert FromLE(s[k + 2..k + 2]) == 0;
  }

  lemma FourBytes(s: Bytes, k: nat, end: nat)
    requires k + 4 <= end <= |s|
    ensures FromLE(s[k..end]) ==
            At(s, k) + 256 * (At(s, k + 1) + 256 * (At(s, k + 2) + 256 * (At(s, k + 3) + 256 * FromLE(s[k + 4..end]))))
  {
    ByteAt(s, k, end);
    ByteAt(s, k + 1, end);
    ByteAt(s, k + 2, end);
    ByteAt(s, k + 3, end);
  }

  lemma EightBytes(s: Bytes, k: nat)
    requires k + 8 <= |s|
    ensures FromLE(s[k..k + 8]) ==
            At(s, k) + 256 * (At(s, k + 1) + 256 * (At(s, k + 2) + 256 * (At(s, k + 3)
            + 256 * (At(s, k + 4) + 256 * (At(s, k + 5) + 256 * (At(s, k + 6) + 256 * At(s, k + 7)))))))
  {
    FourBytes(s, k, k + 8);
    FourBytes(s, k + 4, k + 8);
    assert FromLE(s[k + 8..k + 8]) == 0;
  }

  /** The frame byte by byte: the version, the lengths in order with the two long ones low byte first, the file
      length low byte first, and then the data in the same order. */
  lemma FrameBytes(i: Info)
    requires Fits(i)
    ensures var s := Frame(i);
            && |s| >= 19 && s[0] == 1
            && At(s, 1) + 256 * At(s, 2) == |i.url| && At(s, 3) + 256 * At(s, 4) == |i.directPath|
            && s[5] == |i.mediaKey| && s[6] == |i.fileSHA256| && s[7] == |i.fileEncSHA256|
            && s[8] == |i.mimeType| && s[9] == |i.fileName| && s[10] == |i.mediaType|
            && At(s, 11) + 256 * (At(s, 12) + 256 * (At(s, 13) + 256 * (At(s, 14)
               + 256 * (At(s, 15) + 256 * (At(s, 16) + 256 * (At(s, 17) + 256 * At(s, 18))))))) == i.fileLength
            && s[19..] == i.url + i.directPath + i.mediaKey + i.fileSHA256 + i.fileEncSHA256 + i.mimeType
                          + i.fileName + i.mediaType
  {
    var s := Frame(i);
    HeaderBytes(i, s);
  }

  lemma HeaderBytes(i: Info, s: Bytes)
    requires Fits(i) && s == Frame(i)
    ensures s[0] == 1 && At(s, 1) + 256 * At(s, 2) == |i.url| && At(s, 3) + 256 * At(s, 4) == |i.directPath|
    ensures s[5] == |i.mediaKey| && s[6] == |i.fileSHA256| && s[7] == |i.fileEncSHA256|
    ensures s[8] == |i.mimeType| && s[9] == |i.fileName| && s[10] == |i.mediaType|
    ensures At(s, 11) + 256 * (At(s, 12) + 256 * (At(s, 13) + 256 * (At(s, 14)
            + 256 * (At(s, 15) + 256 * (At(s, 16) + 256 * (At(s, 17) + 256 * At(s, 18))))))) == i.fileLength
  {
    assert Header(i) <= s;
    LayoutOfFrame(i, s);
    TwoBytes(s, 1);
    TwoBytes(s, 3);
    EightBytes(s, 11);
  }

  // ---------- the envelope ----------

  /** Compression and base64, as any function with a left inverse. */
  datatype Envelope = Envelope(wrap: Bytes -> string, unwrap: string -> Option<Bytes>)

  ghost predicate Lossless(e: Envelope) {
    forall b :: e.unwrap(e.wrap(b)) == Some(b)
  }

  method EncodeMediaID(e: Envelope, i: Info) returns (r: Result<string, EncodeError>)
    ensures r.Ok? <==> Fits(i)
    ensures r.Ok? ==> r.value == e.wrap(Frame(i))
    ensures r.Err? ==>
              r.error == if |i.url| > 65535 || |i.directPath| > 65535 then URLOrDirectPathTooLong else FieldTooLong
    ensures Lossless(e) && r.Ok? ==> DecodedID(e, r.value) == Ok(i)
  {
    var frame := EncodeFrame(i);
    match frame {
      case Err(error) => r := Err(error);
      case Ok(b) =>
        r := Ok(e.wrap(b));
        DecodeOfFrame(i, b);
    }
  }

  function DecodedID(e: Envelope, id: string): Result<Info, DecodeError> {
    match e.unwrap(id)
    case None => Err(BadEnvelope)
    case Some(b) => Decode(b)
  }

  method DecodeMediaID(e: Envelope, id: string) returns (r: Result<Info, DecodeError>)
    ensures r == DecodedID(e, id)
    ensures e.unwrap(id).None? ==> r == Err(BadEnvelope)
    ensures r.Ok? <==> e.unwrap(id).Some? && exists i :: Fits(i) && Frame(i) <= e.unwrap(id).value
  {
    var b := e.unwrap(id);
    if b.None? {
      return Err(BadEnvelope);
    }
    r := DecodeFrame(b.value);
    forall i ensures Decode(b.value) == Ok(i) <==> Fits(i) && Frame(i) <= b.value {
      DecodeIff(b.value, i);
    }
    if r.Ok? {
      assert Fits(r.value) && Frame(r.value) <= b.value;
    }
  }
}
