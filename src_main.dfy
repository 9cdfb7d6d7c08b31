/** src/main.c, function `dosomething`: the three operations on one file
    buffer. The chunk reader (`rpng_chunk_read_all_from_memory`) and the
    chunk writer/remover by type (`rpng_chunk_write_from_memory`,
    `rpng_chunk_remove_from_memory`) are not part of this model: the chunk
    list they produce is an input here (`None` for a NULL result). */
module SrcMain {
  import opened Wrappers
  import opened LibC
  import opened Png
  import SrcUtil

  /** Why `dosomething` dies while handling the chunk list. */
  datatype Failure =
    | NoChunks            // the reader returned NULL or no chunk
    | MissingNul(index: nat, printed: seq<TextEntry>)
      // a tEXt chunk whose data holds no NUL; `printed` are the entries
      // already printed for the chunks before it

  // ---------------------------------------------------------------- ADD

  /** The ADD path builds the new tEXt chunk: `strlen(key) + 1` bytes of key
      (its terminator included) followed by `strlen(text)` bytes of text, in
      a buffer of exactly that size. The CRC field is left zero; the writer
      that inserts the chunk is not part of this model. */
  method BuildTextChunk(key: seq<byte>, text: seq<byte>) returns (chunk: Chunk)
    requires 0 !in key && 0 !in text
    requires |key| + 1 + |text| <= INT_MAX
    ensures WellFormed(chunk)
    ensures chunk.ctype == TextType
    ensures chunk.length as int == |key| + 1 + |text|
    ensures chunk.data == TextPayload(key, text)
    ensures DecodeText(chunk.data) == Some((key, text))
  {
    var keysize := |key| + 1;
    var strsize := |text|;
    var chunkdata := new byte[keysize + strsize];
    var keyz := key + [0];
    // memcpy(chunkdata, key, keysize)
    for i := 0 to keysize
      invariant chunkdata[..i] == keyz[..i]
    {
      chunkdata[i] := keyz[i];
    }
    // memcpy(chunkdata + keysize, text, strsize)
    for i := 0 to strsize
      invariant chunkdata[..keysize] == keyz
      invariant chunkdata[keysize..keysize + i] == text[..i]
    {
      chunkdata[keysize + i] := text[i];
    }
    assert chunkdata[..] == keyz + text;
    DecodeTextPayload(key, text);
    chunk := Chunk((keysize + strsize) as uint32, TextType, chunkdata[..], 0);
  }

  // --------------------------------------------------------------- DUMP

  /** One dumped tEXt chunk: its index among all chunks, the chunk count,
      its data length, and the decoded keyword and text. */
  datatype TextEntry = TextEntry(index: nat, count: nat, length: uint32, keyword: seq<byte>, text: seq<byte>)

  /** The dump loop over the first `n` chunks: non-tEXt chunks are passed
      over; a tEXt chunk without a NUL is fatal. */
  function DumpPrefix(cs: seq<Chunk>, n: nat): (r: Result<seq<TextEntry>, Failure>)
    requires n <= |cs|
    ensures r.Err? ==> r.error.MissingNul? && r.error.index < n && IsBadText(cs[r.error.index])
    ensures r.Err? ==> DumpPrefix(cs, r.error.index) == Ok(r.error.printed)
    ensures r.Ok? ==> forall m :: 0 <= m < |r.value| ==> ReportsChunk(cs, r.value[m], n)
    ensures r.Ok? ==> forall m, m' :: 0 <= m < m' < |r.value| ==> r.value[m].index < r.value[m'].index
  {
    if n == 0 then Ok([])
    else match DumpPrefix(cs, n - 1)
      case Err(e) => Err(e)
      case Ok(es) =>
        var c := cs[n - 1];
        if c.ctype != TextType then Ok(es)
        else match DecodeText(c.data)
          case None => Err(MissingNul(n - 1, es))
          case Some((k, t)) => Ok(es + [TextEntry(n - 1, |cs|, c.length, k, t)])
  }

  /** A tEXt chunk whose data holds no NUL. */
  predicate IsBadText(c: Chunk) {
    c.ctype == TextType && 0 !in c.data
  }

  /** `e` reports one of the first `n` chunks: a tEXt chunk whose data is
      `e.keyword`, a NUL and `e.text`. */
  predicate ReportsChunk(cs: seq<Chunk>, e: TextEntry, n: nat)
    requires n <= |cs|
  {
    && e.index < n && e.count == |cs| && cs[e.index].ctype == TextType
    && e.length == cs[e.index].length && 0 !in e.keyword
    && cs[e.index].data == TextPayload(e.keyword, e.text)
  }

  function DumpSpec(read: Option<seq<Chunk>>): Result<seq<TextEntry>, Failure> {
    match read
    case None => Err(NoChunks)
    case Some(cs) => if |cs| == 0 then Err(NoChunks) else DumpPrefix(cs, |cs|)
  }

  /** The DUMP path: walk the chunks, decode each tEXt chunk at its first
      NUL and report it (printing is replaced by the returned entries). */
  method Dump(read: Option<seq<Chunk>>) returns (r: Result<seq<TextEntry>, Failure>)
    requires read.Some? ==> AllWellFormed(read.value)
    ensures r == DumpSpec(read)
  {
    if read.None? || |read.value| == 0 {
      return Err(NoChunks);
    }
    var cs := read.value;
    var count := |cs|;
    var entries: seq<TextEntry> := [];
    for i := 0 to count
      invariant DumpPrefix(cs, i) == Ok(entries)
    {
      if cs[i].ctype != TextType {
        continue;
      }
      var delim := FirstIndexOf(cs[i].data, 0);
      if delim.None? {
        DumpPrefixErrSticky(cs, i + 1, count);
        return Err(MissingNul(i, entries));
      }
      var keysize := delim.value;
      var keyword := cs[i].data[..keysize];
      var text := cs[i].data[keysize + 1..];
      entries := entries + [TextEntry(i, count, cs[i].length, keyword, text)];
    }
    return Ok(entries);
  }

  /** Once the dump loop has died, later chunks do not matter. */
  lemma {:induction false} DumpPrefixErrSticky(cs: seq<Chunk>, n: nat, m: nat)
    requires n <= m <= |cs| && DumpPrefix(cs, n).Err?
    ensures DumpPrefix(cs, m) == DumpPrefix(cs, n)
  {
    if m > n {
      DumpPrefixErrSticky(cs, n, m - 1);
    }
  }

  /** A successful dump reports every tEXt chunk (and, by the contract of
      `DumpPrefix`, nothing else). */
  lemma {:induction false} DumpPrefixComplete(cs: seq<Chunk>, n: nat, i: nat)
    requires i < n <= |cs| && DumpPrefix(cs, n).Ok? && cs[i].ctype == TextType
    ensures exists m :: 0 <= m < |DumpPrefix(cs, n).value| && DumpPrefix(cs, n).value[m].index == i
  {
    var es := DumpPrefix(cs, n).value;
    var prev := DumpPrefix(cs, n - 1);
    if i == n - 1 {
      assert es[|es| - 1].index == i;
    } else {
      DumpPrefixComplete(cs, n - 1, i);
      var m :| 0 <= m < |prev.value| && prev.value[m].index == i;
      assert es[m] == prev.value[m];
    }
  }

  /** In this variant a tEXt chunk without a NUL aborts the whole dump. */
  lemma DumpMissingNulFatal(cs: seq<Chunk>, i: nat)
    requires i < |cs| && IsBadText(cs[i])
    ensures DumpSpec(Some(cs)).Err?
  {
    assert DumpPrefix(cs, i + 1).Err?;
    DumpPrefixErrSticky(cs, i + 1, |cs|);
  }

  /** Without a bad tEXt chunk among the first `n`, the dump loop does not
      die on them. */
  lemma {:induction false} DumpPrefixOkWithoutBad(cs: seq<Chunk>, n: nat)
    requires n <= |cs| && forall j :: 0 <= j < n ==> !IsBadText(cs[j])
    ensures DumpPrefix(cs, n).Ok?
  {
    if n > 0 {
      DumpPrefixOkWithoutBad(cs, n - 1);
    }
  }

  /** The dump dies at the first bad tEXt chunk, after printing the entries
      of every tEXt chunk before it. */
  lemma DumpDiesAtFirstBad(cs: seq<Chunk>, i: nat)
    requires i < |cs| && IsBadText(cs[i])
    requires forall j :: 0 <= j < i ==> !IsBadText(cs[j])
    ensures DumpPrefix(cs, i).Ok?
    ensures DumpSpec(Some(cs)) == Err(MissingNul(i, DumpPrefix(cs, i).value))
  {
    DumpPrefixOkWithoutBad(cs, i);
    assert DumpPrefix(cs, i + 1) == Err(MissingNul(i, DumpPrefix(cs, i).value));
    DumpPrefixErrSticky(cs, i + 1, |cs|);
  }

  /** A valid tEXt chunk followed by one without NUL: the first one's entry
      is printed before the die. */
  lemma DumpPrintsBeforeDie()
    ensures DumpSpec(Some([Chunk(3, TextType, [0x61, 0, 0x62], 0), Chunk(2, TextType, [0x7a, 0x7a], 0)]))
            == Err(MissingNul(1, [TextEntry(0, 2, 3, [0x61], [0x62])]))
  {
    var cs := [Chunk(3, TextType, [0x61, 0, 0x62], 0), Chunk(2, TextType, [0x7a, 0x7a], 0)];
    var key: seq<byte>, text: seq<byte> := [0x61], [0x62];
    DecodeTextPayload(key, text);
    assert cs[0].data == TextPayload(key, text);
    assert DecodeText(cs[0].data) == Some((key, text));
    assert DumpPrefix(cs, 0) == Ok([]);
    assert cs[0].ctype == TextType;
    var e := TextEntry(0, |cs|, cs[0].length, key, text);
    assert DumpPrefix(cs, 1) == Ok([] + [e]);
    assert [] + [e] == [e];
    assert e == TextEntry(0, 2, 3, [0x61], [0x62]);
    assert 0 !in cs[1].data;
  }

  /** The text-length variable of the dump path (`valsize` =
      `length - keysize`) counts the NUL separator: it is one more than the
      text's length. It is never used afterwards. */
  function DumpValSize(c: Chunk): (valsize: int)
    requires WellFormed(c) && DecodeText(c.data).Some?
    ensures valsize == |DecodeText(c.data).value.1| + 1
  {
    c.length as int - |DecodeText(c.data).value.0|
  }

  // ------------------------------------------------------------- REMOVE

  function Repeat(s: seq<byte>, k: nat): seq<byte> {
    if k == 0 then [] else Repeat(s, k - 1) + s
  }

  /** How many of the selectors differ from chunk index `i`. */
  function CountOther(sel: seq<int>, i: int): nat {
    if |sel| == 0 then 0
    else CountOther(sel[..|sel| - 1], i) + (if sel[|sel| - 1] != i then 1 else 0)
  }

  lemma CountOtherSnoc(sel: seq<int>, j: nat, i: int)
    requires j < |sel|
    ensures CountOther(sel[..j + 1], i) == CountOther(sel[..j], i) + (if sel[j] != i then 1 else 0)
  {
    assert sel[..j + 1][..j] == sel[..j];
  }

  /** The four `memcpy`s of one chunk in the remove loop write the chunk's
      on-disk form. */
  lemma SwappedChunkIsChunkBytes(c: Chunk)
    ensures LeBytes(SrcUtil.EndianSwap(c.length)) + c.ctype + c.data
            + LeBytes(SrcUtil.EndianSwap(c.crc)) == ChunkBytes(c)
  {
    SrcUtil.StoreSwappedIsBigEndian(c.length);
    SrcUtil.StoreSwappedIsBigEndian(c.crc);
  }

  /** The four `memcpy` calls that put one chunk into the output buffer:
      the length and the CRC are byte-swapped first, so the stored bytes
      are the chunk's on-disk bytes. */
  method WriteChunk(c: Chunk) returns (written: seq<byte>)
    requires WellFormed(c)
    ensures written == ChunkBytes(c)
    ensures |written| == 12 + c.length as int
  {
    var belength := SrcUtil.EndianSwap(c.length);
    var becrc := SrcUtil.EndianSwap(c.crc);
    written := LeBytes(belength) + c.ctype + c.data + LeBytes(becrc);
    SwappedChunkIsChunkBytes(c);
    ChunkBytesLength(c);
  }

  /** The selectors the inner loop reads: `selchunks[0..selchunk]`. */
  function Selectors(selchunks: seq<int>, selchunk: int): seq<int>
    requires selchunk < |selchunks|
  {
    if selchunk < 0 then [] else selchunks[..selchunk + 1]
  }

  /** What the remove loop writes for the first `n` chunks: every chunk is
      written once per selector that differs from its index. */
  function CopiedAsWritten(cs: seq<Chunk>, sel: seq<int>, n: nat): seq<byte>
    requires n <= |cs|
  {
    if n == 0 then []
    else CopiedAsWritten(cs, sel, n - 1) + Repeat(ChunkBytes(cs[n - 1]), CountOther(sel, n - 1))
  }

  /** The REMOVE path as written: the signature, then for each chunk `i` and
      each selector `j` in `0..selchunk` with `i != selchunks[j]`, the chunk's
      length and CRC byte-swapped and stored through `memcpy` (little-endian
      host) around its type and data. The `malloc(fsize)` output buffer is
      modelled as a byte sequence that grows, because with two or more
      selectors the loop writes past `fsize`. */
  method RemoveAsWritten(read: Option<seq<Chunk>>, selchunks: seq<int>, selchunk: int)
    returns (r: Result<seq<byte>, Failure>)
    requires selchunk < |selchunks|
    requires read.Some? ==> AllWellFormed(read.value)
    ensures read.None? || read.value == [] ==> r == Err(NoChunks)
    ensures read.Some? && read.value != [] ==>
      r == Ok(Signature + CopiedAsWritten(read.value, Selectors(selchunks, selchunk), |read.value|))
  {
    if read.None? || |read.value| == 0 {
      return Err(NoChunks);
    }
    var cs := read.value;
    var newbuf: seq<byte> := Signature;
    var newbufsize := 8;
    for i := 0 to |cs|
      invariant newbuf == Signature + CopiedAsWritten(cs, Selectors(selchunks, selchunk), i)
      invariant newbufsize == |newbuf|
    {
      newbuf, newbufsize := CopyPerSelector(newbuf, newbufsize, cs[i], i, selchunks, selchunk);
    }
    return Ok(newbuf);
  }

  /** The inner loop of the remove path: chunk `c` (index `i`) is written
      once for every selector `selchunks[j]`, `0 <= j <= selchunk`, that
      differs from `i`. */
  method CopyPerSelector(newbuf: seq<byte>, newbufsize: int, c: Chunk, i: int,
                         selchunks: seq<int>, selchunk: int)
    returns (buf: seq<byte>, bufsize: int)
    requires WellFormed(c) && selchunk < |selchunks| && newbufsize == |newbuf|
    ensures buf == newbuf + Repeat(ChunkBytes(c), CountOther(Selectors(selchunks, selchunk), i))
    ensures bufsize == |buf|
  {
    buf, bufsize := newbuf, newbufsize;
    ghost var sel := Selectors(selchunks, selchunk);
    var j := 0;
    while j <= selchunk
      invariant 0 <= j <= |sel| && sel[..j] == selchunks[..j]
      invariant buf == newbuf + Repeat(ChunkBytes(c), CountOther(sel[..j], i))
      invariant bufsize == |buf|
    {
      CountOtherSnoc(sel, j, i);
      if i != selchunks[j] {
        var written := WriteChunk(c);
        buf := buf + written;
        bufsize := bufsize + (8 + c.length as int + 4);
      }
      j := j + 1;
    }
    assert sel[..j] == sel;
  }

  /** The chunks among the first `n` whose index is not a selector. */
  function KeepUnselected(cs: seq<Chunk>, sel: seq<int>, n: nat): seq<Chunk>
    requires n <= |cs|
  {
    if n == 0 then []
    else KeepUnselected(cs, sel, n - 1) + (if n - 1 in sel then [] else [cs[n - 1]])
  }

  /** The evidently intended remove loop: each chunk is copied once, unless
      its index is among the selectors. */
  method RemoveChunks(read: Option<seq<Chunk>>, sel: seq<int>) returns (r: Result<seq<byte>, Failure>)
    requires read.Some? ==> AllWellFormed(read.value)
    ensures read.None? || read.value == [] ==> r == Err(NoChunks)
    ensures read.Some? && read.value != [] ==>
      r == Ok(Signature + Serialize(KeepUnselected(read.value, sel, |read.value|)))
  {
    if read.None? || |read.value| == 0 {
      return Err(NoChunks);
    }
    var cs := read.value;
    var newbuf: seq<byte> := Signature;
    ghost var kept: seq<Chunk> := [];
    for i := 0 to |cs|
      invariant kept == KeepUnselected(cs, sel, i)
      invariant newbuf == Signature + Serialize(kept)
    {
      if i !in sel {
        var written := WriteChunk(cs[i]);
        SerializeSnoc(kept, cs[i]);
        newbuf := newbuf + written;
        kept := kept + [cs[i]];
      }
    }
    return Ok(newbuf);
  }

  lemma SerializeSnoc(cs: seq<Chunk>, c: Chunk)
    ensures Serialize(cs + [c]) == Serialize(cs) + ChunkBytes(c)
  {
    assert (cs + [c])[..|cs|] == cs;
  }

  /** With a single selector the loop as written is right: a chunk is
      copied exactly when its index differs from the selector. */
  lemma {:induction false} SingleSelectorAsIntended(cs: seq<Chunk>, k: int, n: nat)
    requires n <= |cs|
    ensures CopiedAsWritten(cs, [k], n) == Serialize(KeepUnselected(cs, [k], n))
  {
    if n > 0 {
      SingleSelectorAsIntended(cs, k, n - 1);
      var b := ChunkBytes(cs[n - 1]);
      var kept := KeepUnselected(cs, [k], n - 1);
      assert CountOther([k], n - 1) == if k != n - 1 then 1 else 0 by {
        assert [k][..0] == [];
      }
      assert CopiedAsWritten(cs, [k], n) == CopiedAsWritten(cs, [k], n - 1) + Repeat(b, CountOther([k], n - 1));
      if k != n - 1 {
        assert Repeat(b, 1) == b;
        assert KeepUnselected(cs, [k], n) == kept + [cs[n - 1]];
        SerializeSnoc(kept, cs[n - 1]);
      } else {
        assert KeepUnselected(cs, [k], n) == kept;
      }
    }
  }

  /** With a single selector `k` the output is the signature and every chunk
      but the one at index `k`, in their original order. */
  lemma {:induction false} KeepUnselectedSingle(cs: seq<Chunk>, k: int, n: nat)
    requires n <= |cs|
    ensures KeepUnselected(cs, [k], n) == if 0 <= k < n then cs[..k] + cs[k + 1..n] else cs[..n]
  {
    if n > 0 {
      KeepUnselectedSingle(cs, k, n - 1);
      if 0 <= k < n - 1 {
        assert cs[k + 1..n] == cs[k + 1..n - 1] + [cs[n - 1]];
      } else if k != n - 1 {
        assert cs[..n] == cs[..n - 1] + [cs[n - 1]];
      }
    }
  }

  lemma {:induction false} KeepUnselectedSize(cs: seq<Chunk>, sel: seq<int>, n: nat)
    requires n <= |cs|
    ensures SerializedSize(KeepUnselected(cs, sel, n)) <= SerializedSize(cs[..n])
  {
    if n > 0 {
      KeepUnselectedSize(cs, sel, n - 1);
      assert cs[..n] == cs[..n - 1] + [cs[n - 1]];
      SerializedSizeAppend(cs[..n - 1], [cs[n - 1]]);
      var kept := KeepUnselected(cs, sel, n - 1);
      SerializedSizeAppend(kept, if n - 1 in sel then [] else [cs[n - 1]]);
      assert SerializedSize([cs[n - 1]]) == 12 + cs[n - 1].length as int by {
        assert [cs[n - 1]][..0] == [];
      }
      assert SerializedSize([]) == 0;
    }
  }

  /** The bound the output buffer was sized by: copying each chunk at most
      once never produces more than the signature and the input chunks. */
  lemma RemoveFitsInput(cs: seq<Chunk>, sel: seq<int>)
    requires AllWellFormed(cs)
    ensures |Signature + Serialize(KeepUnselected(cs, sel, |cs|))| <= 8 + SerializedSize(cs)
  {
    KeepUnselectedSize(cs, sel, |cs|);
    assert cs[..|cs|] == cs;
    KeepUnselectedWellFormed(cs, sel, |cs|);
    SerializeLength(KeepUnselected(cs, sel, |cs|));
  }

  lemma {:induction false} KeepUnselectedWellFormed(cs: seq<Chunk>, sel: seq<int>, n: nat)
    requires n <= |cs| && AllWellFormed(cs)
    ensures AllWellFormed(KeepUnselected(cs, sel, n))
  {
    if n > 0 {
      KeepUnselectedWellFormed(cs, sel, n - 1);
    }
  }

  /** The IEND chunk: empty data, CRC 0xAE426082. */
  const Iend: Chunk := Chunk(0, [0x49, 0x45, 0x4e, 0x44], [], 0xae42_6082)

  /** Two selectors that both miss the only chunk: the loop as written
      copies it twice, so 32 bytes are written into a 20-byte buffer. */
  lemma RemoveTwoSelectorsOverrun()
    ensures |Signature + CopiedAsWritten([Iend], [5, 6], 1)| == 32
    ensures 8 + SerializedSize([Iend]) == 20
    ensures |Signature + Serialize(KeepUnselected([Iend], [5, 6], 1))| == 20
  {
    var b := ChunkBytes(Iend);
    ChunkBytesLength(Iend);
    assert [5, 6][..1] == [5];
    assert [5][..0] == [];
    assert CountOther([5, 6], 0) == 2;
    assert Repeat(b, 2) == b + b by {
      assert Repeat(b, 1) == b;
    }
    assert CopiedAsWritten([Iend], [5, 6], 1) == b + b;
    assert KeepUnselected([Iend], [5, 6], 1) == [Iend];
    SerializeSnoc([], Iend);
    assert [] + [Iend] == [Iend];
    assert SerializedSize([Iend]) == 12 by {
      assert [Iend][..0] == [];
    }
  }
}
