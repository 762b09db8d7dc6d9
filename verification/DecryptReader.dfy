/** Writing a chunked file in a loop, and the reader that walks through it. */
module DecryptReader {
  import opened Wrappers
  import opened LittleEndian
  import opened ChunkedFile

  lemma EncryptedStep(c: Cipher, nonces: nat -> nat, from: nat, data: seq<byte>, written: seq<byte>)
    requires data != []
    ensures written + Encrypted(c, nonces, from, data)
         == written + U32Bytes(|c.seal(nonces(from), FirstChunk(data))|) + c.seal(nonces(from), FirstChunk(data))
              + Encrypted(c, nonces, from + 1, AfterFirst(data))
  {
  }

  /** The bytes written for a plaintext, one chunk of at most `CHUNK_SIZE` at a time. */
  method EncryptToFile(c: Cipher, nonces: nat -> nat, data: seq<byte>) returns (fileData: seq<byte>)
    ensures fileData == Encrypted(c, nonces, 0, data)
  {
    fileData := [];
    var at, i := 0, 0;
    while at < |data|
      invariant at <= |data|
      invariant fileData + Encrypted(c, nonces, i, data[at..]) == Encrypted(c, nonces, 0, data)
    {
      var end := if |data| - at <= CHUNK_SIZE then |data| else at + CHUNK_SIZE;
      var chunk := data[at..end];
      assert chunk == FirstChunk(data[at..]) && data[end..] == AfterFirst(data[at..]);
      EncryptedStep(c, nonces, i, data[at..], fileData);
      var encrypted := c.seal(nonces(i), chunk);
      fileData := fileData + U32Bytes(|encrypted|);
      fileData := fileData + encrypted;
      at, i := end, i + 1;
    }
  }

  class DecryptReader {
    const fileData: seq<byte>
    var fileOffset: nat
    var buffer: seq<byte>
    var bufOffset: nat
    const key: Cipher

    function State(): Reader
      reads this
    {
      Reader(fileData, fileOffset, buffer, bufOffset)
    }

    ghost predicate Valid()
      reads this
    {
      InRange(State())
    }

    constructor (fileData: seq<byte>, key: Cipher)
      ensures Valid() && State() == Start(fileData) && this.key == key
    {
      this.fileData, this.key := fileData, key;
      fileOffset, buffer, bufOffset := 0, [], 0;
    }

    /** Decrypts the next chunk into the buffer; false at the end of the file. */
    method FillBuffer() returns (filled: Result<bool, ()>)
      requires Valid()
      modifies this
      ensures Valid() && (State(), filled) == Fill(key, old(State()))
    {
      if fileOffset >= |fileData| {
        return Ok(false);
      }
      if fileOffset + 4 > |fileData| {
        return Ok(false);
      }
      var chunkLen := U32At(fileData, fileOffset);
      fileOffset := fileOffset + 4;
      if fileOffset + chunkLen > |fileData| {
        return Err(());
      }
      var encrypted := fileData[fileOffset..fileOffset + chunkLen];
      fileOffset := fileOffset + chunkLen;
      match key.open(encrypted) {
        case None =>
          return Err(());
        case Some(plain) =>
          buffer := plain;
          bufOffset := 0;
          return Ok(true);
      }
    }

    /** One read: its bytes go to the front of `buf`, whose other bytes stay. */
    method Read(buf: array<byte>) returns (count: Result<nat, ()>)
      requires Valid()
      modifies this, buf
      ensures Valid() && State() == ReadOnce(key, old(State()), buf.Length).0
      ensures match ReadOnce(key, old(State()), buf.Length).1
              case Err(_) => count == Err(()) && buf[..] == old(buf[..])
              case Ok(bytes) =>
                && count == Ok(|bytes|) && |bytes| <= buf.Length
                && buf[..] == bytes + old(buf[..])[|bytes|..]
    {
      if bufOffset >= |buffer| {
        var filled := FillBuffer();
        match filled {
          case Err(_) => return Err(());
          case Ok(more) =>
            if !more {
              return Ok(0);
            }
        }
      }
      var available := |buffer| - bufOffset;
      var toCopy := if available <= buf.Length then available else buf.Length;
      forall i | 0 <= i < toCopy {
        buf[i] := buffer[bufOffset + i];
      }
      bufOffset := bufOffset + toCopy;
      count := Ok(toCopy);
    }
  }
}
