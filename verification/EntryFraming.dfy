/**
  The file of one cache entry and the file handles it is read and written through
  (packages/hub/node.ts, `openEntry`, `bodyStream`, `writeAll`, `readFileRange`).

  An entry is a header line, a newline and the body.  A handle may read and write less than it was
  asked for.
 */
module EntryFraming {
  import opened Wrappers

  type Bytes = seq<bv8>

  const NEWLINE: bv8 := 10
  const HEADER_LIMIT: nat := 65536
  const CHUNK_BYTES: nat := 1048576

  datatype EntryHeader = EntryHeader(url: string, status: int, statusText: string, headers: seq<(string, string)>)

  /** Spelling a header as one line of JSON in UTF-8, and reading such a line. */
  datatype Codec = Codec(encode: EntryHeader -> Bytes, decode: Bytes -> Option<EntryHeader>)

  /** JSON escapes raw newlines (section 7 of RFC 8259), and a printed header reads back. */
  ghost predicate Sound(codec: Codec) {
    forall h :: NEWLINE !in codec.encode(h) && codec.decode(codec.encode(h)) == Some(h)
  }

  function HeaderLine(codec: Codec, header: EntryHeader): Bytes {
    codec.encode(header) + [NEWLINE]
  }

  function Print(codec: Codec, header: EntryHeader, body: Bytes): Bytes {
    HeaderLine(codec, header) + body
  }

  // ----- opening ------------------------------------------------------------------------------

  datatype Opened = Opened(header: EntryHeader, bodyOffset: nat, size: nat) | Corrupt

  function FirstNewline(bytes: Bytes): (i: nat)
    ensures i <= |bytes|
    ensures NEWLINE !in bytes[..i]
    ensures i < |bytes| ==> bytes[i] == NEWLINE
  {
    if bytes == [] || bytes[0] == NEWLINE then 0
    else
      var i := 1 + FirstNewline(bytes[1..]);
      assert bytes[..i] == [bytes[0]] + bytes[1..][..i - 1];
      i
  }

  /** Opening reads the head of the file once; `bytesRead` is how much that one read returned. */
  function OpenEntry(codec: Codec, file: Bytes, bytesRead: nat): Opened
    requires bytesRead <= HEADER_LIMIT && bytesRead <= |file|
  {
    var newline := FirstNewline(file[..bytesRead]);
    if newline == bytesRead then Corrupt
    else match codec.decode(file[..newline])
      case None => Corrupt
      case Some(header) => Opened(header, newline + 1, |file|)
  }

  /** The first newline within what was read stands at position i. */
  ghost predicate LineEndsAt(file: Bytes, bytesRead: nat, i: nat) {
    i < bytesRead <= |file| && file[i] == NEWLINE && forall j :: 0 <= j < i ==> file[j] != NEWLINE
  }

  /** Any file opens exactly when its first line was read to the end and is a header; the body starts after it. */
  lemma OpensIff(codec: Codec, file: Bytes, bytesRead: nat)
    requires bytesRead <= HEADER_LIMIT && bytesRead <= |file|
    ensures OpenEntry(codec, file, bytesRead).Opened? <==>
            exists i: nat :: LineEndsAt(file, bytesRead, i) && codec.decode(file[..i]).Some?
    ensures forall i: nat :: LineEndsAt(file, bytesRead, i) && codec.decode(file[..i]).Some? ==>
              OpenEntry(codec, file, bytesRead) == Opened(codec.decode(file[..i]).value, i + 1, |file|)
  {
    var newline := FirstNewline(file[..bytesRead]);
    assert file[..bytesRead][..newline] == file[..newline];
    if newline < bytesRead {
      assert LineEndsAt(file, bytesRead, newline);
    }
    assert forall j :: 0 <= j < newline ==> file[..newline][j] == file[j];
    assert newline < bytesRead ==> file[..bytesRead][newline] == file[newline];
  }

  /**
    A printed entry opens as what was printed exactly when the one read of the head covers the header line
    with its newline.  A shorter read refuses the entry, whatever the body holds.
   */
  lemma OpenPrinted(codec: Codec, header: EntryHeader, body: Bytes, bytesRead: nat)
    requires Sound(codec)
    requires bytesRead <= HEADER_LIMIT && bytesRead <= |Print(codec, header, body)|
    ensures OpenEntry(codec, Print(codec, header, body), bytesRead) ==
            if bytesRead < |HeaderLine(codec, header)| then Corrupt
            else Opened(header, |HeaderLine(codec, header)|, |Print(codec, header, body)|)
    ensures Print(codec, header, body)[|HeaderLine(codec, header)|..] == body
  {
    var line := codec.encode(header);
    var file := Print(codec, header, body);
    if bytesRead <= |line| {
      assert file[..bytesRead] == line[..bytesRead];
      FirstNewlineAfter(line[..bytesRead], []);
    } else {
      assert file[..bytesRead] == line + [NEWLINE] + file[|line| + 1..bytesRead];
      FirstNewlineAfter(line, file[|line| + 1..bytesRead]);
      assert file[..|line|] == line;
    }
  }

  lemma {:induction false} FirstNewlineAfter(line: Bytes, rest: Bytes)
    requires NEWLINE !in line
    ensures FirstNewline(line) == |line|
    ensures FirstNewline(line + [NEWLINE] + rest) == |line|
  {
    if line != [] {
      assert (line + [NEWLINE] + rest)[1..] == line[1..] + [NEWLINE] + rest;
      FirstNewlineAfter(line[1..], rest);
    }
  }

  /** With a full read of the head, header and body are found exactly when the header line fits the limit. */
  lemma OpensWithinLimit(codec: Codec, header: EntryHeader, body: Bytes)
    requires Sound(codec)
    ensures var file := Print(codec, header, body);
            var full := if |file| < 65536 then |file| else 65536;
            var line := HeaderLine(codec, header);
            && OpenEntry(codec, file, full) == (if |line| <= 65536 then Opened(header, |line|, |file|) else Corrupt)
            && file[|line|..] == body
  {
    var file := Print(codec, header, body);
    OpenPrinted(codec, header, body, if |file| < HEADER_LIMIT then |file| else HEADER_LIMIT);
  }

  // ----- handles ------------------------------------------------------------------------------

  /**
    An open file.  A positional read returns at least one byte unless it starts at the end.  `errors` counts
    the calls that failed.
   */
  class FileHandle {
    var data: Bytes
    var closed: bool
    ghost var errors: nat

    constructor (data: Bytes)
      ensures this.data == data && !closed && errors == 0
    {
      this.data, closed, errors := data, false, 0;
    }

    /** `None` is an I/O error. */
    method Read(length: nat, position: nat) returns (r: Option<Bytes>)
      requires !closed
      modifies this`errors
      ensures errors == if r.Some? then old(errors) else old(errors) + 1
      ensures r.Some? ==> |r.value| <= length
      ensures r.Some? ==> (r.value == [] <==> length == 0 || position >= |data|)
      ensures r.Some? && r.value != [] ==>
                position + |r.value| <= |data| && r.value == data[position..position + |r.value|]
    {
      var fails: bool := *;
      if fails {
        errors := errors + 1;
        return None;
      }
      if length == 0 || position >= |data| {
        return Some([]);
      }
      var available := if length < |data| - position then length else |data| - position;
      var n: nat :| 1 <= n <= available;
      return Some(data[position..position + n]);
    }

    /** Appends some of the bytes and says how many; `None` is an I/O error. */
    method Write(bytes: Bytes) returns (written: Option<nat>)
      requires !closed && bytes != []
      modifies this
      ensures !closed && errors == if written.Some? then old(errors) else old(errors) + 1
      ensures written.Some? ==> 1 <= written.value <= |bytes| && data == old(data) + bytes[..written.value]
      ensures written.None? ==> data == old(data)
    {
      var fails: bool := *;
      if fails {
        errors := errors + 1;
        return None;
      }
      var n: nat :| 1 <= n <= |bytes|;
      data := data + bytes[..n];
      return Some(n);
    }

    method Close()
      modifies this`closed
      ensures closed
    {
      closed := true;
    }
  }

  /** Writes everything, however short the single writes are; only an error stops it, after a prefix. */
  method WriteAll(handle: FileHandle, bytes: Bytes) returns (ok: bool)
    requires !handle.closed
    modifies handle
    ensures !handle.closed && (ok <==> handle.errors == old(handle.errors))
    ensures ok ==> handle.data == old(handle.data) + bytes
    ensures !ok ==> exists n :: 0 <= n < |bytes| && handle.data == old(handle.data) + bytes[..n]
  {
    var written := 0;
    while written < |bytes|
      invariant 0 <= written <= |bytes| && !handle.closed && handle.errors == old(handle.errors)
      invariant handle.data == old(handle.data) + bytes[..written]
    {
      var n := handle.Write(bytes[written..]);
      if n.None? {
        return false;
      }
      assert bytes[..written] + bytes[written..][..n.value] == bytes[..written + n.value];
      written := written + n.value;
    }
    return true;
  }

  datatype RangeRead = Bytes(target: Bytes) | TooShort | Failed

  /** Reads exactly [offset, offset + length), or says that the file is too short; the handle is closed on every exit. */
  method ReadFileRange(file: FileHandle, offset: nat, length: nat) returns (r: RangeRead)
    requires !file.closed
    modifies file
    ensures file.closed && file.data == old(file.data)
    ensures r.Failed? <==> file.errors != old(file.errors)
    ensures r.TooShort? <==> file.errors == old(file.errors) && length > 0 && offset + length > |file.data|
    ensures r.Bytes? ==> r.target == if length == 0 then [] else file.data[offset..offset + length]
  {
    var target := new bv8[length](_ => 0);
    var filled := 0;
    while filled < length
      invariant 0 <= filled <= length && !file.closed && file.data == old(file.data) && file.errors == old(file.errors)
      invariant filled > 0 ==> offset + filled <= |file.data| && target[..filled] == file.data[offset..offset + filled]
      invariant fresh(target)
    {
      var piece := file.Read(length - filled, offset + filled);
      if piece.None? {
        file.Close();
        return Failed;
      }
      if piece.value == [] {
        file.Close();
        return TooShort;
      }
      ghost var before := target[..filled];
      assert filled > 0 ==> before + piece.value == file.data[offset..offset + filled + |piece.value|];
      forall k | 0 <= k < |piece.value| {
        target[filled + k] := piece.value[k];
      }
      assert target[..filled] == before;
      assert target[..filled + |piece.value|] == target[..filled] + piece.value;
      filled := filled + |piece.value|;
    }
    file.Close();
    assert target[..length] == target[..];
    return Bytes(target[..]);
  }

  // ----- the body as a stream -----------------------------------------------------------------

  datatype Pulled = Chunk(bytes: Bytes) | End | ReadError | Shrank

  class BodyStream {
    const handle: FileHandle
    const size: nat
    var position: nat
    var closed: bool

    constructor (handle: FileHandle, bodyOffset: nat, size: nat)
      requires !handle.closed
      ensures this.handle == handle && this.size == size && position == bodyOffset && !closed
    {
      this.handle, this.size, position, closed := handle, size, bodyOffset, false;
    }

    method Close()
      modifies this, handle
      ensures closed && position == old(position) && handle.data == old(handle.data) && handle.errors == old(handle.errors)
      ensures old(closed ==> handle.closed) ==> handle.closed
    {
      if !closed {
        closed := true;
        handle.Close();
      }
    }

    /** One chunk.  Every answer but a chunk closes the handle. */
    method Pull() returns (p: Pulled)
      requires !closed && !handle.closed
      modifies this, handle
      ensures handle.data == old(handle.data)
      ensures closed == handle.closed == !p.Chunk?
      ensures p.ReadError? <==> handle.errors != old(handle.errors)
      ensures p.End? <==> old(position) >= size
      ensures p.Chunk? ==>
                && 1 <= |p.bytes| <= 1048576
                && position == old(position) + |p.bytes| <= size
                && position <= |handle.data| && p.bytes == handle.data[old(position)..position]
      ensures p.Shrank? <==> |handle.data| <= old(position) < size && handle.errors == old(handle.errors)
    {
      if size <= position {
        Close();
        return End;
      }
      var length := if CHUNK_BYTES < size - position then CHUNK_BYTES else size - position;
      var read := handle.Read(length, position);
      if read.None? {
        Close();
        return ReadError;
      }
      if read.value == [] {
        Close();
        return Shrank;
      }
      position := position + |read.value|;
      return Chunk(read.value);
    }
  }

  /** Reading a stream to its end: the whole body, or an I/O error, and the handle is closed. */
  method Drain(stream: BodyStream) returns (body: Option<Bytes>)
    requires !stream.closed && !stream.handle.closed
    requires stream.position <= stream.size <= |stream.handle.data|
    modifies stream, stream.handle
    ensures stream.closed && stream.handle.closed
    ensures body.Some? <==> stream.handle.errors == old(stream.handle.errors)
    ensures body.Some? ==> body.value == old(stream.handle.data[stream.position..stream.size])
  {
    var out: Bytes := [];
    ghost var data, from := stream.handle.data, stream.position;
    while true
      invariant !stream.closed && !stream.handle.closed && stream.handle.data == data
      invariant stream.handle.errors == old(stream.handle.errors)
      invariant from <= stream.position <= stream.size <= |data|
      invariant out == data[from..stream.position]
      decreases stream.size - stream.position
    {
      var p := stream.Pull();
      match p {
        case Chunk(bytes) => out := out + bytes;
        case End => return Some(out);
        case ReadError => return None;
        case Shrank =>
          assert false;
      }
    }
  }
}
