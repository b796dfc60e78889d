/** What tfs_read hands over, in terms of the file's contents. */
module FsReads {
  import opened CTypes
  import opened FsState
  import opened FsOperations
  import opened FsInvariant

  /** The bytes of a live file. */
  function Content(s: State, i: int): (c: seq<Byte>)
    requires s.Shape() && s.ValidInum(i)
    ensures s.inodes[i].size <= s.blockSize && (s.inodes[i].size > 0 ==> s.ValidBlock(s.inodes[i].block)) ==>
            |c| == s.inodes[i].size
  {
    var inode := s.inodes[i];
    if inode.size == 0 || !s.ValidBlock(inode.block) || inode.size > s.blockSize then []
    else s.data[s.Base(inode.block)..s.Base(inode.block) + inode.size]
  }

  /**
   * The read that tfs_read is meant to be: skip one NUL at the cursor, then take what is left of the file
   * up to len bytes or the next NUL, whichever comes first.
   */
  function Delivered(c: seq<Byte>, offset: nat, len: nat): (r: Chunk)
    requires offset <= |c|
    ensures offset <= r.offset <= |c| && |r.bytes| <= len && |r.bytes| <= r.offset - offset <= |r.bytes| + 1
    ensures NUL !in r.bytes
  {
    if offset == |c| || len == 0 then Chunk([], offset)
    else
      var p := Skip(c, offset);
      var z := NulFrom(c, p);
      var end := if z < p + len then z else p + len;
      Chunk(c[p..end], end)
  }

  /**
   * The case in which it is not: the cursor is at a NUL, the buffer reaches the end of the file and no NUL
   * follows, so the length fixed before the skip takes in one byte from behind the file.
   */
  predicate OverReads(c: seq<Byte>, behind: Byte, offset: nat, len: nat) {
    && offset < |c| && c[offset] == NUL && offset + len >= |c|
    && NUL !in c[offset + 1..] && behind != NUL
  }

  lemma Slice(mem: seq<Byte>, base: nat, size: nat, p: nat, q: nat)
    requires p <= q <= size && base + size <= |mem|
    ensures mem[base..base + size][p..q] == mem[base + p..base + q]
  {
    var c := mem[base..base + size];
    var there := mem[base + p..base + q];
    forall k | 0 <= k < q - p ensures c[p..q][k] == there[k] {
      assert c[p..q][k] == c[p + k] == mem[base + (p + k)] == mem[(base + p) + k];
    }
  }

  lemma SliceGrows(mem: seq<Byte>, a: nat, b: nat)
    requires a <= b < |mem|
    ensures mem[a..b + 1] == mem[a..b] + [mem[b]]
  {
  }

  /** The first NUL of a block's used part, found in memory. */
  lemma NulInContent(mem: seq<Byte>, base: nat, size: nat, p: nat)
    requires p <= size && base + size < |mem|
    ensures var z := NulFrom(mem, base + p);
            NulFrom(mem[base..base + size], p) == if z < base + size then z - base else size
  {
    var c := mem[base..base + size];
    var z := NulFrom(mem, base + p);
    assert forall k :: 0 <= k < size ==> c[k] == mem[base + k];
    var y := NulFrom(c, p);
    if y < size { assert mem[base + y] == NUL; }
    if z < base + size { assert c[z - base] == NUL; }
  }

  /** Where tfs_read starts copying. */
  function Skip(c: seq<Byte>, offset: nat): nat
    requires offset < |c|
  {
    if c[offset] == NUL then offset + 1 else offset
  }

  /** What tfs_read takes, once it is known where the first NUL from p on lies. */
  lemma ReadChunkIs(mem: seq<Byte>, base: nat, offset: nat, n: nat, end: nat)
    requires base + offset < |mem| && base + end <= |mem|
    requires var p := if mem[base + offset] == NUL then offset + 1 else offset; var z := NulFrom(mem, base + p);
             || (z < |mem| && z == base + end < base + p + n)
             || (end == p + n && base + end <= z)
    ensures var p := if mem[base + offset] == NUL then offset + 1 else offset;
            p <= end && ReadChunk(mem, base, offset, n) == Some(Chunk(mem[base + p..base + end], end))
  {
  }

  /** What a read is meant to deliver, once it is known where it ends. */
  lemma DeliveredIs(c: seq<Byte>, offset: nat, len: nat, end: nat)
    requires offset < |c| && 0 < len
    requires var p := Skip(c, offset); var z := NulFrom(c, p); end == if z < p + len then z else p + len
    ensures Skip(c, offset) <= end <= |c| && Delivered(c, offset, len) == Chunk(c[Skip(c, offset)..end], end)
  {
  }

  /** The read ends within the file, at position end: at a NUL, or because its length is used up. */
  lemma ReadEnds(mem: seq<Byte>, base: nat, size: nat, offset: nat, n: nat, end: nat)
    requires offset < size && base + size < |mem| && end <= size
    requires var c := mem[base..base + size]; var p := Skip(c, offset); var z := NulFrom(c, p);
             || end == p + n <= z
             || (end == z < p + n && (z == size ==> mem[base + size] == NUL))
    ensures var c := mem[base..base + size]; var p := Skip(c, offset);
            p <= end && ReadChunk(mem, base, offset, n) == Some(Chunk(c[p..end], end))
  {
    var c := mem[base..base + size];
    var p := Skip(c, offset);
    assert c[offset] == mem[base + offset];
    NulInContent(mem, base, size, p);
    Slice(mem, base, size, p, end);
    hide NulFrom, ReadChunk;
    ReadChunkIs(mem, base, offset, n, end);
  }

  /** Nothing stops the read at the end of the file. */
  lemma ReadPastEnd(mem: seq<Byte>, base: nat, size: nat, offset: nat)
    requires offset < size && base + size < |mem| && mem[base + offset] == NUL && mem[base + size] != NUL
    requires NulFrom(mem[base..base + size], offset + 1) == size
    ensures ReadChunk(mem, base, offset, size - offset)
         == Some(Chunk(mem[base..base + size][offset + 1..] + [mem[base + size]], size + 1))
  {
    var c := mem[base..base + size];
    var p := offset + 1;
    NulInContent(mem, base, size, p);
    Slice(mem, base, size, p, size);
    assert c[p..size] == c[p..];
    SliceGrows(mem, base + p, base + size);
    hide NulFrom, ReadChunk;
    ReadChunkIs(mem, base, offset, size - offset, size + 1);
  }

  /** Whether a NUL follows the cursor, once the leading one is skipped. */
  lemma NulFollows(c: seq<Byte>, offset: nat)
    requires offset < |c| && c[offset] == NUL
    ensures NUL in c[offset + 1..] <==> NulFrom(c, offset + 1) < |c|
  {
    var z := NulFrom(c, offset + 1);
    if z < |c| {
      assert c[offset + 1..][z - offset - 1] == NUL;
    }
  }

  /**
   * What tfs_read takes: what it is meant to deliver, or, when it runs over, the rest of the file and one byte
   * more.
   */
  function HandedOver(c: seq<Byte>, behind: Byte, offset: nat, len: nat): (r: Chunk)
    requires offset <= |c|
    ensures r == Delivered(c, offset, len) <==> !OverReads(c, behind, offset, len)
    ensures r.offset <= |c| <==> !OverReads(c, behind, offset, len)
  {
    if OverReads(c, behind, offset, len) then Chunk(c[offset + 1..] + [behind], |c| + 1) else Delivered(c, offset, len)
  }

  lemma NothingHandedOver(c: seq<Byte>, behind: Byte, offset: nat, len: nat)
    requires offset <= |c| && (offset == |c| || len == 0)
    ensures HandedOver(c, behind, offset, len) == Chunk([], offset)
  {
  }

  /** On the block's bytes tfs_read takes exactly that. */
  lemma ReadChunkTakes(mem: seq<Byte>, base: nat, size: nat, offset: nat, len: nat)
    requires offset < size && base + size < |mem| && 0 < len
    ensures ReadChunk(mem, base, offset, ReadLength(size, offset, len))
         == Some(HandedOver(mem[base..base + size], mem[base + size], offset, len))
  {
    var c := mem[base..base + size];
    var n := ReadLength(size, offset, len);
    if c[offset] == NUL {
      NulFollows(c, offset);
    }
    if OverReads(c, mem[base + size], offset, len) {
      ReadPastEnd(mem, base, size, offset);
    } else {
      var p := Skip(c, offset);
      var z := NulFrom(c, p);
      var end := if z < p + len then z else p + len;
      DeliveredIs(c, offset, len, end);
      hide NulFrom, ReadChunk, Delivered;
      ReadEnds(mem, base, size, offset, n, end);
    }
  }

  /** The byte of memory just behind file i's contents. */
  function Behind(s: State, i: int): Byte
    requires s.Shape() && s.ValidInum(i)
  {
    if s.ValidBlock(s.inodes[i].block) && s.inodes[i].size <= s.blockSize
    then s.data[s.Base(s.inodes[i].block) + s.inodes[i].size] else NUL
  }

  predicate CursorInside(s: State, h: int)
    requires s.Shape() && s.IsOpen(h) && s.ValidInum(s.open[h].inumber)
  {
    s.open[h].offset <= s.inodes[s.open[h].inumber].size
  }

  /** An open file's contents as they lie in its block. */
  lemma OpenContent(s: State, h: int)
    requires Inv(s) && s.IsOpen(h)
    ensures var i := s.open[h].inumber; s.ValidInum(i) && |Content(s, i)| == s.inodes[i].size <= s.blockSize
    ensures var i := s.open[h].inumber; var inode := s.inodes[i];
            inode.size > 0 ==>
              && s.ValidBlock(inode.block)
              && Content(s, i) == s.data[s.Base(inode.block)..s.Base(inode.block) + inode.size]
              && Behind(s, i) == s.data[s.Base(inode.block) + inode.size]
  {
    var i := s.open[h].inumber;
    assert SizeOk(s, i);
    if s.inodes[i].size > 0 {
      assert Owns(s, i, s.inodes[i].block);
    }
  }

  /** tfs_read through an open handle, where there is something to read and room for it. */
  lemma ReadBusy(s: State, h: int, len: nat, c: Chunk)
    requires s.Mounted() && s.IsOpen(h) && s.ValidInum(s.open[h].inumber) && CursorInside(s, h)
    requires var inode := s.inodes[s.open[h].inumber];
             && s.open[h].offset < inode.size && 0 < len && s.ValidBlock(inode.block)
             && ReadChunk(s.data, s.Base(inode.block), s.open[h].offset, ReadLength(inode.size, s.open[h].offset, len))
                == Some(c)
    ensures TfsRead(s, h, len)
         == Done(s.(open := s.open[h := OpenEntry(s.open[h].inumber, c.offset)]), |c.bytes|, c.bytes)
  {
  }

  /** With nothing to read, or no room for it, tfs_read leaves all as it was. */
  lemma ReadIdle(s: State, h: int, len: nat)
    requires s.Mounted() && s.IsOpen(h) && s.ValidInum(s.open[h].inumber) && CursorInside(s, h)
    requires s.open[h].offset == s.inodes[s.open[h].inumber].size || len == 0
    ensures TfsRead(s, h, len) == Done(s.(open := s.open[h := s.open[h]]), 0, [])
  {
    assert s == s.(open := s.open[h := s.open[h]]);
  }

  lemma ReadBusyTakes(s: State, h: int, len: nat)
    requires Inv(s) && s.IsOpen(h) && CursorInside(s, h)
    requires s.ValidInum(s.open[h].inumber) && s.open[h].offset < s.inodes[s.open[h].inumber].size && 0 < len
    ensures var i := s.open[h].inumber;
            s.open[h].offset <= |Content(s, i)| &&
            var r := HandedOver(Content(s, i), Behind(s, i), s.open[h].offset, len);
            TfsRead(s, h, len) == Done(s.(open := s.open[h := OpenEntry(i, r.offset)]), |r.bytes|, r.bytes)
  {
    hide Inv, TfsRead, ReadChunk, Content, Behind, ReadLength, HandedOver;
    InvMounted(s);
    OpenContent(s, h);
    var i := s.open[h].inumber;
    ReadChunkTakes(s.data, s.Base(s.inodes[i].block), s.inodes[i].size, s.open[h].offset, len);
    ReadBusy(s, h, len, HandedOver(Content(s, i), Behind(s, i), s.open[h].offset, len));
  }

  /** tfs_read through an open handle whose cursor is inside its file: all that it hands over and changes. */
  lemma ReadTakes(s: State, h: int, len: nat)
    requires Inv(s) && s.IsOpen(h) && CursorInside(s, h)
    ensures var i := s.open[h].inumber; s.ValidInum(i) && |Content(s, i)| == s.inodes[i].size
    ensures var i := s.open[h].inumber; var r := HandedOver(Content(s, i), Behind(s, i), s.open[h].offset, len);
            TfsRead(s, h, len) == Done(s.(open := s.open[h := OpenEntry(i, r.offset)]), |r.bytes|, r.bytes)
  {
    hide Inv, TfsRead, Content, Behind, HandedOver;
    InvMounted(s);
    OpenContent(s, h);
    var i := s.open[h].inumber;
    if s.open[h].offset < s.inodes[i].size && len > 0 {
      ReadBusyTakes(s, h, len);
    } else {
      NothingHandedOver(Content(s, i), Behind(s, i), s.open[h].offset, len);
      ReadIdle(s, h, len);
    }
  }

  /** So it delivers what it is meant to, and leaves the cursor inside the file, exactly when it does not run over. */
  lemma ReadIff(s: State, h: int, len: nat)
    requires Inv(s) && s.IsOpen(h) && CursorInside(s, h)
    ensures TfsRead(s, h, len).Done? && s.ValidInum(s.open[h].inumber)
    ensures var i := s.open[h].inumber; var c := Content(s, i); var offset := s.open[h].offset;
            var r := TfsRead(s, h, len);
            && |c| == s.inodes[i].size && r.ret == |r.bytes|
            && r.state == s.(open := s.open[h := OpenEntry(i, r.state.open[h].offset)])
            && (Chunk(r.bytes, r.state.open[h].offset) == Delivered(c, offset, len)
                <==> !OverReads(c, Behind(s, i), offset, len))
            && (CursorInside(r.state, h) <==> !OverReads(c, Behind(s, i), offset, len))
  {
    hide Inv, TfsRead, Content, Behind, Delivered, OverReads, HandedOver;
    InvMounted(s);
    ReadTakes(s, h, len);
    var i := s.open[h].inumber;
    var r := HandedOver(Content(s, i), Behind(s, i), s.open[h].offset, len);
    assert Chunk(r.bytes, r.offset) == r;
  }

  /** With one byte left, a NUL, and anything but NUL behind the file, a drained reader receives that byte. */
  lemma StrayByte(s: State, h: int)
    requires Inv(s) && s.IsOpen(h)
    requires var i := s.open[h].inumber; var size := s.inodes[i].size;
             && 0 < size == |Content(s, i)| && s.open[h].offset == size - 1
             && Content(s, i)[size - 1] == NUL && Behind(s, i) != NUL
    ensures TfsRead(s, h, s.blockSize).Done? && TfsRead(s, h, s.blockSize).bytes == [Behind(s, s.open[h].inumber)]
  {
    var i := s.open[h].inumber;
    hide Inv, TfsRead, Content, Behind, Delivered;
    InvMounted(s);
    var c := Content(s, i);
    OpenContent(s, h);
    ReadTakes(s, h, s.blockSize);
    assert c[|c|..] == [];
  }

  /** A read delivers all it asks for exactly when there is no NUL in it. */
  lemma StopsAtNulIff(c: seq<Byte>, offset: nat, len: nat)
    requires offset <= |c|
    ensures var n := if len < |c| - offset then len else |c| - offset;
            Delivered(c, offset, len).bytes == c[offset..offset + n] <==> NUL !in c[offset..offset + n]
  {
    var n := if len < |c| - offset then len else |c| - offset;
    if n > 0 {
      assert c[offset..offset + n][0] == c[offset];
      var z := NulFrom(c, offset);
      if z < offset + n {
        assert c[offset..offset + n][z - offset] == NUL;
      }
    }
  }

  // ---- a cursor behind the end of the file ----

  /**
   * The length tfs_read fixes stays within the file, or is 0, exactly when the cursor is inside the file.
   * Behind its end the subtraction wraps, and the read asks for all of len.
   */
  lemma ReadLengthIff(size: nat, offset: nat, len: nat)
    requires 0 < len && len + offset <= SIZE_T_RANGE && size < SIZE_T_RANGE
    ensures offset + ReadLength(size, offset, len) <= size || ReadLength(size, offset, len) == 0 <==> offset <= size
    ensures size < offset ==> ReadLength(size, offset, len) == len
  {
    if size < offset {
      WrapIs(size, offset);
    }
  }

  lemma WrapIs(a: nat, b: nat)
    requires a < b <= SIZE_T_RANGE
    ensures WrapSub(a, b) == a - b + SIZE_T_RANGE
  {
  }

  /** A read from there takes what lies in the memory from the cursor on, whosever it is. */
  lemma StrandedRead(s: State, h: int, len: nat)
    requires s.Mounted() && s.IsOpen(h) && s.ValidInum(s.open[h].inumber) && !CursorInside(s, h)
    requires 0 < len && len + s.open[h].offset <= SIZE_T_RANGE && s.inodes[s.open[h].inumber].size < SIZE_T_RANGE
    requires s.ValidBlock(s.inodes[s.open[h].inumber].block)
    ensures var e := s.open[h];
            TfsRead(s, h, len)
            == match ReadChunk(s.data, s.Base(s.inodes[e.inumber].block), e.offset, len)
               case None => Crash
               case Some(c) => Done(s.(open := s.open[h := e.(offset := c.offset)]), |c.bytes|, c.bytes)
  {
    ReadLengthIff(s.inodes[s.open[h].inumber].size, s.open[h].offset, len);
  }
}
