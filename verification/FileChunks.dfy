/** Cutting a file into chunks and writing chunks back at running offsets. */
module FileChunks {
  import opened ByteStrings
  import opened Segments

  /** The file cut every `size` bytes; only the last chunk may be shorter. */
  function Chunks(data: Bytes, size: nat): seq<Bytes>
    requires size > 0
    decreases |data|
  {
    if data == [] then []
    else if |data| <= size then [data]
    else [data[..size]] + Chunks(data[size..], size)
  }

  function Min(a: int, b: int): int {
    if a < b then a else b
  }

  /** Chunking loses nothing and reorders nothing. */
  lemma {:induction false} ConcatOfChunks(data: Bytes, size: nat)
    requires size > 0
    ensures Concat(Chunks(data, size)) == data
    decreases |data|
  {
    if data != [] && |data| <= size {
      ConcatOne(data);
    } else if data != [] {
      ConcatOfChunks(data[size..], size);
      assert Chunks(data, size)[1..] == Chunks(data[size..], size);
      assert data == data[..size] + data[size..];
    }
  }

  lemma Product(k: nat, size: nat)
    requires k > 0
    ensures k * size == size + (k - 1) * size && (k - 1) * size >= 0
  {
  }

  lemma SliceOfDrop(data: Bytes, k: nat, lo: nat, hi: nat)
    requires k <= |data| && lo <= hi <= |data| - k
    ensures data[k..][lo..hi] == data[k + lo..k + hi]
  {
  }

  /** Chunk i holds exactly the bytes from i * size on, at most `size` of them and never none. */
  lemma {:induction false} ChunkAt(data: Bytes, size: nat, i: nat)
    requires size > 0 && i < |Chunks(data, size)|
    ensures 0 <= i * size < |data|
    ensures Chunks(data, size)[i] == data[i * size..Min(i * size + size, |data|)]
    decreases |data|
  {
    if i > 0 {
      var rest := data[size..];
      ChunkAt(rest, size, i - 1);
      Product(i, size);
      var lo := (i - 1) * size;
      SliceOfDrop(data, size, lo, Min(lo + size, |rest|));
    } else {
      assert i * size == 0;
    }
  }

  /** How many chunks there are: the length divided by the chunk size, rounded up. */
  lemma {:induction false} ChunkCount(data: Bytes, size: nat)
    requires size > 0
    ensures var n := |Chunks(data, size)|;
            n * size >= |data| && (n > 0 ==> (n - 1) * size < |data|) && (n == 0 <==> data == [])
    decreases |data|
  {
    if |data| > size {
      ChunkCount(data[size..], size);
    }
  }

  /** A FIN is numbered one above the number it is made for. */
  function FinNumber(sequenceNumber: nat): nat { sequenceNumber + 1 }

  /** An upload of at most 20 MB, counted from 1, never needs a sequence number above 16 bits, nor a chunk
      above the 11-bit length field. The FIN is made twice, first for the next number and then, as it
      goes out, for the number of the first FIN. */
  lemma UploadsFitTheHeader(data: Bytes)
    requires |data| <= 20 * 1024 * 1024
    ensures var next := 1 + |Chunks(data, MAX_PAYLOAD_SIZE)|;
            next < FinNumber(FinNumber(next)) == next + 2 < 0x1_0000
    ensures forall i :: 0 <= i < |Chunks(data, MAX_PAYLOAD_SIZE)| ==>
              0 < |Chunks(data, MAX_PAYLOAD_SIZE)[i]| <= 1400 - 8 <= 2047
  {
    ChunkCount(data, MAX_PAYLOAD_SIZE);
    forall i | 0 <= i < |Chunks(data, MAX_PAYLOAD_SIZE)|
      ensures 0 < |Chunks(data, MAX_PAYLOAD_SIZE)[i]| <= 1400 - 8
    {
      ChunkAt(data, MAX_PAYLOAD_SIZE, i);
    }
  }

  lemma ChunksStep(data: Bytes, size: nat)
    requires size > 0 && data != []
    ensures var cut := Min(size, |data|);
            Chunks(data, size) == [data[..cut]] + Chunks(data[cut..], size)
  {
    if |data| <= size {
      assert data[..|data|] == data;
    }
  }

  /** Reads the whole file, one chunk per read, until a read returns nothing. */
  method ReadAllChunks(file: Bytes, chunkSize: nat) returns (chunks: seq<Bytes>)
    requires chunkSize > 0
    ensures chunks == Chunks(file, chunkSize)
  {
    chunks := [];
    var cursor := 0;
    assert file[0..] == file;
    while true
      invariant 0 <= cursor <= |file|
      invariant chunks + Chunks(file[cursor..], chunkSize) == Chunks(file, chunkSize)
      decreases |file| - cursor
    {
      var chunk := file[cursor..Min(cursor + chunkSize, |file|)];
      if chunk == [] {
        break;
      }
      ChunksStep(file[cursor..], chunkSize);
      assert file[cursor..][..|chunk|] == chunk;
      assert file[cursor..][|chunk|..] == file[cursor + |chunk|..];
      chunks := chunks + [chunk];
      cursor := cursor + |chunk|;
    }
  }

  /** The bytes one batch covers: windowSize chunks from the offset on, or what the file still has. */
  function BatchBytes(file: Bytes, offset: nat, windowSize: nat, chunkSize: nat): Bytes {
    if |file| <= offset then [] else file[offset..offset + Min(windowSize * chunkSize, |file| - offset)]
  }

  lemma NextChunk(data: Bytes, size: nat, i: nat)
    requires size > 0 && i < |data|
    ensures var next := Min(i + size, |data|);
            Chunks(data[i..], size) == [data[i..next]] + Chunks(data[next..], size)
  {
    var next := Min(i + size, |data|);
    ChunksStep(data[i..], size);
    hide Chunks;
    SliceOfDrop(data, i, 0, next - i);
    assert data[i..][next - i..] == data[next..];
  }

  lemma NoChunks(data: Bytes, size: nat)
    requires size > 0
    ensures Chunks(data[|data|..], size) == []
  {
  }

  method ReadBatch(file: Bytes, offset: nat, windowSize: nat, chunkSize: nat) returns (chunks: seq<Bytes>)
    requires chunkSize > 0
    ensures chunks == Chunks(BatchBytes(file, offset, windowSize, chunkSize), chunkSize)
  {
    hide Chunks, BatchBytes;
    var data := BatchBytes(file, offset, windowSize, chunkSize);
    chunks := [];
    var i := 0;
    assert data[0..] == data;
    while i < |data|
      invariant 0 <= i
      invariant chunks + Chunks(data[Min(i, |data|)..], chunkSize) == Chunks(data, chunkSize)
    {
      var next := Min(i + chunkSize, |data|);
      NextChunk(data, chunkSize, i);
      ghost var rest := Chunks(data[next..], chunkSize);
      assert chunks + ([data[i..next]] + rest) == chunks + [data[i..next]] + rest;
      chunks := chunks + [data[i..next]];
      i := i + chunkSize;
    }
    NoChunks(data, chunkSize);
  }

  /** Dropping whole chunks' worth of bytes drops those chunks. */
  lemma {:induction false} DropChunks(data: Bytes, size: nat, k: nat)
    requires size > 0 && k <= |Chunks(data, size)|
    ensures if |data| <= k * size then k == |Chunks(data, size)|
            else k * size >= 0 && Chunks(data[k * size..], size) == Chunks(data, size)[k..]
    decreases k
  {
    if k == 0 {
      assert k * size == 0 && data[0..] == data;
    } else {
      Product(k, size);
      ChunksStep(data, size);
      var cut := Min(size, |data|);
      DropChunks(data[cut..], size, k - 1);
      if |data| > k * size {
        SliceOfDrop(data, size, (k - 1) * size, |data| - size);
        assert data[size..][(k - 1) * size..] == data[k * size..];
      }
    }
  }

  /** Keeping the bytes of w chunks keeps the first w chunks. */
  lemma {:induction false} TakeChunks(data: Bytes, size: nat, w: nat)
    requires size > 0
    ensures w * size >= 0
    ensures Chunks(data[..Min(w * size, |data|)], size) == Chunks(data, size)[..Min(w, |Chunks(data, size)|)]
    decreases w
  {
    if w == 0 || data == [] {
      assert 0 * size == 0;
    } else {
      Product(w, size);
      ChunksStep(data, size);
      var cut := Min(size, |data|);
      var rest, kept := data[cut..], data[..Min(w * size, |data|)];
      TakeChunks(rest, size, w - 1);
      ChunksStep(kept, size);
      assert kept[..cut] == data[..cut];
      assert kept[cut..] == rest[..Min((w - 1) * size, |rest|)];
    }
  }

  lemma SliceOfChunks(all: seq<Bytes>, k: nat, w: nat)
    requires k <= |all|
    ensures all[k..][..Min(w, |all| - k)] == all[k..Min(k + w, |all|)]
  {
  }

  /** A batch read at a chunk boundary is the matching window of the whole file's chunks. */
  lemma BatchIsWindow(file: Bytes, k: nat, windowSize: nat, chunkSize: nat)
    requires chunkSize > 0 && k <= |Chunks(file, chunkSize)|
    ensures k * chunkSize >= 0
    ensures var all := Chunks(file, chunkSize);
            Chunks(BatchBytes(file, k * chunkSize, windowSize, chunkSize), chunkSize)
            == all[k..Min(k + windowSize, |all|)]
  {
    DropChunks(file, chunkSize, k);
    var offset := k * chunkSize;
    if offset < |file| {
      var rest := file[offset..];
      TakeChunks(rest, chunkSize, windowSize);
      var n := Min(windowSize * chunkSize, |rest|);
      SliceOfDrop(file, offset, 0, n);
      assert BatchBytes(file, offset, windowSize, chunkSize) == rest[..n];
      SliceOfChunks(Chunks(file, chunkSize), k, windowSize);
    }
  }

  function Overwrite(content: Bytes, offset: nat, data: Bytes): Bytes
    requires offset + |data| <= |content|
  {
    content[..offset] + data + content[offset + |data|..]
  }

  lemma OverwriteNothing(content: Bytes, offset: nat)
    requires offset <= |content|
    ensures Overwrite(content, offset, []) == content
  {
  }

  lemma OverwriteMore(content: Bytes, offset: nat, done: Bytes, more: Bytes)
    requires offset + |done| + |more| <= |content|
    ensures Overwrite(Overwrite(content, offset, done), offset + |done|, more)
            == Overwrite(content, offset, done + more)
  {
  }

  /** The file under download: allocated at its full declared size, then filled in place. */
  class FileWriter {
    const fileSize: nat
    var content: Bytes

    ghost predicate Valid()
      reads this
    {
      |content| == fileSize
    }

    /** Allocation seeks to fileSize - 1, so an empty file cannot be allocated. */
    constructor (fileSize: nat)
      requires fileSize >= 1
      ensures Valid() && this.fileSize == fileSize
      ensures content == seq(fileSize, _ => 0)
    {
      this.fileSize := fileSize;
      content := seq(fileSize, _ => 0);
    }

    /** Refuses, changing nothing, what would run past the declared size. */
    method WriteChunk(offset: nat, data: Bytes) returns (ok: bool)
      requires Valid()
      modifies this
      ensures Valid()
      ensures ok <==> offset + |data| <= fileSize
      ensures content == if ok then Overwrite(old(content), offset, data) else old(content)
    {
      ok := offset + |data| <= fileSize;
      if ok {
        content := content[..offset] + data + content[offset + |data|..];
      }
    }

    method WriteBatch(offset: nat, chunks: seq<Bytes>) returns (ok: bool)
      requires Valid()
      modifies this
      ensures Valid()
      ensures ok <==> offset + |Concat(chunks)| <= fileSize
      ensures content == if ok then Overwrite(old(content), offset, Concat(chunks)) else old(content)
    {
      var total := 0;
      assert chunks[..|chunks|] == chunks;
      for i := 0 to |chunks|
        invariant total == |Concat(chunks[..i])|
        invariant content == old(content)
      {
        ConcatTake(chunks, i);
        total := total + |chunks[i]|;
      }
      assert total == |Concat(chunks)|;
      ok := offset + total <= fileSize;
      if ok {
        var position := offset;
        OverwriteNothing(content, offset);
        for i := 0 to |chunks|
          invariant position == offset + |Concat(chunks[..i])|
          invariant |Concat(chunks[..i])| <= |Concat(chunks)|
          invariant Valid() && content == Overwrite(old(content), offset, Concat(chunks[..i]))
        {
          ConcatTake(chunks, i);
          ConcatAppend(chunks[..i + 1], chunks[i + 1..]);
          assert chunks[..i + 1] + chunks[i + 1..] == chunks;
          OverwriteMore(old(content), offset, Concat(chunks[..i]), chunks[i]);
          content := content[..position] + chunks[i] + content[position + |chunks[i]|..];
          position := position + |chunks[i]|;
        }
      }
    }
  }

  lemma ConcatTake(chunks: seq<Bytes>, i: nat)
    requires i < |chunks|
    ensures Concat(chunks[..i + 1]) == Concat(chunks[..i]) + chunks[i]
  {
    assert chunks[..i + 1] == chunks[..i] + [chunks[i]];
    ConcatAppend(chunks[..i], [chunks[i]]);
    ConcatOne(chunks[i]);
  }

  /** Writing at the running offset extends the finished prefix and touches nothing before it. */
  lemma RunningWrite(content: Bytes, done: Bytes, data: Bytes)
    requires |done| + |data| <= |content| && content[..|done|] == done
    ensures Overwrite(content, |done|, data)[..|done| + |data|] == done + data
  {
  }
}
