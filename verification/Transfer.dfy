/** File bytes crossing a remoting hop as base64, in bounded chunks. */
module Transfer {
  import opened Common
  import opened Base64

  const CHUNK_B64_CHARS: nat := 262144
  const CHUNK_RAW_BYTES: nat := 196608

  // ---- get: raw windows, each encoded on its own -------------------------

  /** The encodings of consecutive windows of `size` bytes, joined. */
  function JoinedWindows(bytes: seq<Byte>, size: nat): string
    requires size > 0
    decreases |bytes|
  {
    if |bytes| <= size then Encode(bytes)
    else Encode(bytes[..size]) + JoinedWindows(bytes[size..], size)
  }

  /** Joined windows decode to the file exactly when no window but the last can end in
      padding: the window is a whole number of three-byte groups, or there is only one. */
  lemma {:induction false} WindowsDecodeIff(bytes: seq<Byte>, size: nat)
    requires size > 0
    ensures Decode(JoinedWindows(bytes, size)) == Some(bytes) <==> size % 3 == 0 || |bytes| <= size
    ensures size % 3 == 0 || |bytes| <= size ==> JoinedWindows(bytes, size) == Encode(bytes)
    ensures size % 3 != 0 && |bytes| > size ==> Decode(JoinedWindows(bytes, size)).None?
    decreases |bytes|
  {
    if |bytes| <= size {
      RoundTrip(bytes);
    } else if size % 3 == 0 {
      WindowsDecodeIff(bytes[size..], size);
      EncodeConcat(bytes[..size], bytes[size..]);
      assert bytes == bytes[..size] + bytes[size..];
      RoundTrip(bytes);
    } else {
      JoinedIsEmptyIff(bytes[size..], size);
      PaddedCannotContinue(bytes[..size], JoinedWindows(bytes[size..], size));
    }
  }

  lemma JoinedIsEmptyIff(bytes: seq<Byte>, size: nat)
    requires size > 0
    ensures JoinedWindows(bytes, size) == "" <==> bytes == []
  {
  }

  /** Fill a buffer from an offset of a file whose reads may come back short. */
  method ReadRange(file: seq<Byte>, offset: nat, length: nat, short: nat -> nat) returns (buf: seq<Byte>)
    requires offset + length <= |file|
    ensures buf == file[offset..offset + length]
  {
    buf := [];
    while |buf| < length
      invariant |buf| <= length && buf == file[offset..offset + |buf|]
    {
      // One read: at least a byte while any is left, never more than was asked for.
      var n := Min(1 + short(|buf|), length - |buf|);
      buf := buf + file[offset + |buf|..offset + |buf| + n];
    }
  }

  /** The get loop: the text it builds decodes to the staged file. */
  method Get(file: seq<Byte>, short: nat -> nat) returns (out: string)
    ensures out == Encode(file) && Decode(out) == Some(file)
  {
    out := "";
    var off := 0;
    while off < |file|
      invariant off <= |file| && (off % 3 == 0 || off == |file|)
      invariant out == Encode(file[..off])
    {
      var take := Min(CHUNK_RAW_BYTES, |file| - off);
      var window := ReadRange(file, off, take, short);
      EncodeConcat(file[..off], window);
      assert file[..off] + window == file[..off + take];
      out := out + Encode(window);
      off := off + take;
    }
    assert file[..off] == file;
    RoundTrip(file);
  }

  // ---- put: slices of one encoding ---------------------------------------

  /** The put loop appends consecutive slices of the whole encoding to a file on the
      other side; what is decoded there is the source. */
  method Put(source: seq<Byte>) returns (appended: string, received: Option<seq<Byte>>)
    ensures appended == Encode(source) && received == Some(source)
  {
    var b64 := Encode(source);
    appended := "";
    var pos := 0;
    while pos < |b64|
      invariant pos <= |b64| && appended == b64[..pos]
    {
      var take := Min(CHUNK_B64_CHARS, |b64| - pos);
      appended := appended + b64[pos..pos + take];
      pos := pos + take;
    }
    RoundTrip(source);
    received := Decode(appended);
  }

  /** The window that get uses always decodes to the file. */
  lemma ChunkSizesFit()
    ensures CHUNK_RAW_BYTES % 3 == 0
    ensures forall bytes: seq<Byte> :: Decode(JoinedWindows(bytes, CHUNK_RAW_BYTES)) == Some(bytes)
  {
    forall bytes: seq<Byte> ensures Decode(JoinedWindows(bytes, CHUNK_RAW_BYTES)) == Some(bytes) {
      WindowsDecodeIff(bytes, CHUNK_RAW_BYTES);
    }
  }
}
