/** pngmeta/main.c, second half: the output-path construction of the
    batch loop, and the decisions `process` takes around the chunk engine
    (DUMP decoding, the ADD and REMOVE size checks). The chunk engine itself
    is not part of this model: its results come in as parameters. */
module PngmetaProcess {
  import opened Wrappers
  import opened LibC
  import opened Png
  import SrcUtil
  import opened PngmetaUtil
  import SrcMain

  // -------------------------------------------------------- OUTPUT PATH

  /** What the batch loop does for one input file when an output directory
      is given, as written: `fnlen` is set to `filename - infile`, the
      offset `getfilename` returns, which is the length of the directory
      part and not of the file name. The buffer holds `outdirlen + fnlen + 1`
      characters; `fnlen` characters are copied from `filename` (reading the
      input string and its NUL, `overread` when that is not enough), and the
      NUL goes to index `outdirlen + fnlen + 1`. */
  datatype OutfileWrite = OutfileWrite(size: nat, copied: string, overread: bool, nulAt: nat)

  function OutfileAsWritten(outdir: string, infile: string): OutfileWrite {
    var fn := SrcUtil.GetFileName(infile);
    var fnlen := fn;
    var cstr := infile + ['\0'];
    var end := if fn + fnlen <= |cstr| then fn + fnlen else |cstr|;
    OutfileWrite(|outdir| + fnlen + 1, outdir + cstr[fn..end], fn + fnlen > |cstr|, |outdir| + fnlen + 1)
  }

  /** As written, the terminator is always stored one past the end of the
      buffer, and the part copied after the directory is as long as the
      input's directory part. */
  lemma OutfileAsWrittenOverruns(outdir: string, infile: string)
    ensures OutfileAsWritten(outdir, infile).nulAt == OutfileAsWritten(outdir, infile).size
    ensures OutfileAsWritten(outdir, infile).size == |outdir| + SrcUtil.GetFileName(infile) + 1
    ensures !OutfileAsWritten(outdir, infile).overread ==>
              |OutfileAsWritten(outdir, infile).copied| == |outdir| + SrcUtil.GetFileName(infile)
  {
  }

  /** `-d out dir/x.png`: the file name "/x.png" is cut to "/x.", the
      terminator lands at index 7 of a 7-character buffer; the intended path
      is "out/x.png". */
  lemma OutfileAsWrittenExample()
    ensures OutfileAsWritten("out", "dir/x.png") == OutfileWrite(7, "out/x.", false, 7)
    ensures OutPath(Some("out"), "dir/x.png") == "out/x.png"
  {
    FileNameOfExample();
    var cstr := "dir/x.png" + ['\0'];
    assert cstr[3..6] == "/x.";
    assert "dir/x.png"[3..] == "/x.png";
  }

  /** With no separator in the input `fnlen` is 0, so nothing of the name
      is copied: a 4-character buffer receives "out", its last slot is never
      written, and the NUL goes to index 4, past the end. The corrected
      path copies the whole name, still with no separator between. */
  lemma OutfileAsWrittenDropsPlainName()
    ensures OutfileAsWritten("out", "x.png") == OutfileWrite(4, "out", false, 4)
    ensures OutPath(Some("out"), "x.png") == "outx.png"
  {
    assert '\\' !in "x.png" && '/' !in "x.png";
  }

  lemma FileNameOfExample()
    ensures SrcUtil.GetFileName("dir/x.png") == 3
  {
    var p := "dir/x.png";
    assert '\\' !in p;
    assert p[4..] == "x.png";
    LastIndexOfAt(p, '/', 3);
  }

  /** The output path with the least change to the batch loop: the input
      path itself, or the output directory followed by all of what
      `getfilename` returns (the last separator and the name after it),
      terminated within the buffer. No separator is added, so an input
      without one is appended to the directory directly. */
  function OutPath(outdir: Option<string>, infile: string): string {
    match outdir
    case None => infile
    case Some(dir) => dir + infile[SrcUtil.GetFileName(infile)..]
  }

  /** Without an output directory the input path is used as is; with one
      the path is the directory followed by a suffix of the input that is
      either all of it or starts at a separator. */
  lemma OutPathShape(outdir: string, infile: string)
    ensures OutPath(None, infile) == infile
    ensures |OutPath(Some(outdir), infile)| <= |outdir| + |infile|
    ensures OutPath(Some(outdir), infile)[..|outdir|] == outdir
    ensures var rest := OutPath(Some(outdir), infile)[|outdir|..];
            rest == infile || (|rest| > 0 && rest[0] in "/\\" && infile[|infile| - |rest|..] == rest)
  {
    var p := OutPath(Some(outdir), infile);
    assert p[|outdir|..] == infile[SrcUtil.GetFileName(infile)..];
  }

  /** For `dir/name` with a plain name the output path is the output
      directory, one slash and the name. */
  lemma OutPathOfJoin(outdir: string, dir: string, name: string)
    requires '\\' !in dir && '\\' !in name && '/' !in name
    requires |dir| > 0 && dir[|dir| - 1] == '/'
    ensures OutPath(Some(outdir), dir + name) == outdir + "/" + name
  {
    GetFileNameOfJoin(dir, name);
  }

  /** `memcpy(dst + at, src, |src|)`: the characters of `src` land at
      `at`, and nothing else in `dst` changes. */
  method CopyInto(dst: array<char>, at: nat, src: string)
    requires at + |src| <= dst.Length
    modifies dst
    ensures dst[..at] == old(dst[..at])
    ensures dst[at..at + |src|] == src
    ensures dst[at + |src|..] == old(dst[at + |src|..])
  {
    for k := 0 to |src|
      invariant dst[..at] == old(dst[..at])
      invariant dst[at..at + k] == src[..k]
      invariant dst[at + |src|..] == old(dst[at + |src|..])
    {
      dst[at + k] := src[k];
      assert dst[at..at + k + 1] == dst[at..at + k] + [dst[at + k]];
    }
  }

  /** The corrected construction: the length copied is the length of the
      suffix `getfilename` returns, and the NUL goes right after it. */
  method BuildOutfile(outdir: string, infile: string) returns (outfile: array<char>)
    ensures fresh(outfile)
    ensures outfile[..] == OutPath(Some(outdir), infile) + ['\0']
  {
    var filename := SrcUtil.GetFileName(infile);
    var outdirlen := |outdir|;
    var fnlen := |infile| - filename;
    outfile := new char[outdirlen + fnlen + 1];
    CopyInto(outfile, 0, outdir);
    CopyInto(outfile, outdirlen, infile[filename..]);
    outfile[outdirlen + fnlen] := '\0';
    assert outfile[..] == outfile[..outdirlen] + outfile[outdirlen..outdirlen + fnlen] + [outfile[outdirlen + fnlen]];
  }

  // ------------------------------------------------ ADD / REMOVE CHECKS

  /** What `process` does after the engine call: die, or write `size`
      bytes of the buffer. */
  datatype Outcome = Die | Write(size: int)

  /** The ADD path as written. `newfsize` is set to 0 and never assigned
      again, so the check "resulting size equal to original" compares 0
      with `fsize` (with `--exclusive`, `fsize` has become the size after
      the tEXt chunks were removed). `removedSize` and `addedSize` are the
      results of the chunk engine's remove and add calls. */
  function AddAsWritten(exclusive: bool, fsize: int, removedSize: int, addedSize: int): Outcome {
    var newfsize := 0;
    var compared := if exclusive then removedSize else fsize;
    if newfsize == compared then Die else Write(addedSize)
  }

  /** The check as written looks at neither the engine's result nor the
      sizes' relation: only at whether the compared size is 0. */
  lemma AddCheckIgnoresResult(exclusive: bool, fsize: int, removedSize: int, addedSize: int)
    ensures AddAsWritten(exclusive, fsize, removedSize, addedSize).Die?
            <==> (if exclusive then removedSize else fsize) == 0
    ensures AddAsWritten(exclusive, fsize, removedSize, addedSize).Write? ==>
              AddAsWritten(exclusive, fsize, removedSize, addedSize).size == addedSize
  {
  }

  /** An add that leaves a 100-byte file at 100 bytes passes the check as
      written; the intended check stops it. */
  lemma AddUnchangedSizeSlipsThrough()
    ensures AddAsWritten(false, 100, 0, 100) == Write(100)
    ensures AddChecked(false, 100, 0, 100) == Die
  {
  }

  /** The intended ADD check: die when the size after adding equals the
      size before it. */
  function AddChecked(exclusive: bool, fsize: int, removedSize: int, addedSize: int): (r: Outcome)
    ensures r.Die? <==> addedSize == (if exclusive then removedSize else fsize)
    ensures r.Write? ==> r.size == addedSize
  {
    var compared := if exclusive then removedSize else fsize;
    if addedSize == compared then Die else Write(addedSize)
  }

  /** Both checks let a real change through when the compared size is not 0. */
  lemma AddChecksAgreeOnChange(exclusive: bool, fsize: int, removedSize: int, addedSize: int)
    requires (if exclusive then removedSize else fsize) != 0
    requires addedSize != (if exclusive then removedSize else fsize)
    ensures AddAsWritten(exclusive, fsize, removedSize, addedSize)
            == AddChecked(exclusive, fsize, removedSize, addedSize) == Write(addedSize)
  {
  }

  /** The REMOVE path: die when the engine's result has the input's size,
      otherwise write that many bytes. This check compares the right values. */
  function RemoveChecked(fsize: int, newsize: int): (r: Outcome)
    ensures r.Die? <==> newsize == fsize
    ensures r.Write? ==> r.size == newsize
  {
    if newsize == fsize then Die else Write(newsize)
  }

  /** The REMOVE check is the intended ADD check without `--exclusive`. */
  lemma RemoveCheckMatchesIntendedAdd(fsize: int, removedSize: int, newsize: int)
    ensures RemoveChecked(fsize, newsize) == AddChecked(false, fsize, removedSize, newsize)
  {
  }

  // --------------------------------------------------------------- DUMP

  /** One step of the chunk parser: the parser's `state.count` after the
      step and the chunk it produced. */
  datatype ParsedChunk = ParsedChunk(count: int, chunk: Chunk)

  /** What the dump loop reports for a tEXt chunk: the count, the length,
      the keyword and the `valsize` bytes after the NUL; or the message
      for a tEXt chunk without NUL. */
  datatype DumpLine = Entry(count: int, length: uint32, keyword: seq<byte>, value: seq<byte>) | Invalid

  /** The lines one chunk contributes: none unless its type is tEXt, the
      invalid message when `memchr` finds no NUL in the data, otherwise an
      entry. */
  function LineFor(p: ParsedChunk): (r: seq<DumpLine>)
    requires WellFormed(p.chunk)
    ensures r == [] <==> p.chunk.ctype != TextType
    ensures r == [Invalid] <==> p.chunk.ctype == TextType && 0 !in p.chunk.data
    ensures |r| <= 1
    ensures |r| == 1 && r[0].Entry? ==>
              r[0].count == p.count && r[0].length == p.chunk.length
              && 0 !in r[0].keyword && p.chunk.data == TextPayload(r[0].keyword, r[0].value)
              && |r[0].value| == p.chunk.length as int - |r[0].keyword| - 1
  {
    var c := p.chunk;
    if c.ctype != TextType then []
    else
      match FirstIndexOf(c.data, 0)
      case None => [Invalid]
      case Some(keysize) =>
        var valsize := c.length as int - keysize - 1;
        assert c.data == c.data[..keysize] + [0] + c.data[keysize + 1..keysize + 1 + valsize];
        [Entry(p.count, c.length, c.data[..keysize], c.data[keysize + 1..keysize + 1 + valsize])]
  }

  predicate AllParsedWellFormed(ps: seq<ParsedChunk>) {
    forall i :: 0 <= i < |ps| ==> WellFormed(ps[i].chunk)
  }

  /** The lines of the whole dump, in chunk order. */
  function DumpLines(ps: seq<ParsedChunk>): seq<DumpLine>
    requires AllParsedWellFormed(ps)
  {
    if |ps| == 0 then [] else DumpLines(ps[..|ps| - 1]) + LineFor(ps[|ps| - 1])
  }

  /** Why the DUMP path dies: `png_parser_create` rejected the buffer. */
  datatype DumpFailure = BrokenInput

  /** The DUMP path of `process`. `parsed` is `None` when the parser cannot
      be created on the buffer, which is fatal; otherwise it holds what each
      parser step before `PNG_END` handed over. A chunk without NUL is
      reported and skipped with `continue`, and the loop goes on with the
      next chunk. */
  method DumpText(parsed: Option<seq<ParsedChunk>>) returns (r: Result<seq<DumpLine>, DumpFailure>)
    requires parsed.Some? ==> AllParsedWellFormed(parsed.value)
    ensures r.Err? <==> parsed.None?
    ensures r.Ok? ==> r.value == DumpLines(parsed.value)
  {
    if parsed.None? {
      return Err(BrokenInput);
    }
    var ps := parsed.value;
    var lines := [];
    for i := 0 to |ps|
      invariant lines == DumpLines(ps[..i])
    {
      assert ps[..i + 1][..i] == ps[..i];
      var chunk := ps[i].chunk;
      if chunk.ctype == TextType {
        var delim := FirstIndexOf(chunk.data, 0);
        if delim.None? {
          lines := lines + [Invalid];
          continue;
        }
        var keysize := delim.value;
        var valsize := chunk.length as int - keysize - 1;
        lines := lines + [Entry(ps[i].count, chunk.length, chunk.data[..keysize],
                                chunk.data[keysize + 1..keysize + 1 + valsize])];
      }
    }
    assert ps[..|ps|] == ps;
    return Ok(lines);
  }

  /** Dumping a sequence of chunks is dumping each part: what one chunk
      yields, an invalid one included, does not depend on the others. */
  lemma {:induction false} DumpLinesAppend(ps: seq<ParsedChunk>, qs: seq<ParsedChunk>)
    requires AllParsedWellFormed(ps) && AllParsedWellFormed(qs)
    ensures AllParsedWellFormed(ps + qs)
    ensures DumpLines(ps + qs) == DumpLines(ps) + DumpLines(qs)
  {
    forall i | 0 <= i < |ps + qs|
      ensures WellFormed((ps + qs)[i].chunk)
    {
      if i >= |ps| {
        assert (ps + qs)[i] == qs[i - |ps|];
      }
    }
    if |qs| == 0 {
      assert ps + qs == ps;
    } else {
      var qs', last := qs[..|qs| - 1], qs[|qs| - 1];
      DumpLinesAppend(ps, qs');
      assert (ps + qs)[..|ps + qs| - 1] == ps + qs';
      assert (ps + qs)[|ps + qs| - 1] == last;
    }
  }

  /** How many chunks have type tEXt. */
  function CountText(ps: seq<ParsedChunk>): nat {
    if |ps| == 0 then 0
    else CountText(ps[..|ps| - 1]) + (if ps[|ps| - 1].chunk.ctype == TextType then 1 else 0)
  }

  /** One line per tEXt chunk, valid or not, and none for other chunks. */
  lemma {:induction false} DumpLinesCount(ps: seq<ParsedChunk>)
    requires AllParsedWellFormed(ps)
    ensures |DumpLines(ps)| == CountText(ps)
  {
    if |ps| > 0 {
      DumpLinesCount(ps[..|ps| - 1]);
    }
  }

  /** A tEXt chunk built from a NUL-free keyword and any text is dumped as
      exactly that keyword and text. */
  lemma DumpTextRoundTrip(count: int, keyword: seq<byte>, text: seq<byte>, crc: uint32)
    requires 0 !in keyword && |keyword| + 1 + |text| < 0x1_0000_0000
    ensures var c := Chunk((|keyword| + 1 + |text|) as uint32, TextType, TextPayload(keyword, text), crc);
            LineFor(ParsedChunk(count, c)) == [Entry(count, c.length, keyword, text)]
  {
    var data := TextPayload(keyword, text);
    DecodeTextPayload(keyword, text);
    assert FirstIndexOf(data, 0) == Some(|keyword|);
    assert data[|keyword| + 1..|keyword| + 1 + |text|] == text;
  }

  /** The two tools' `valsize`: here it is the text's length, in the other
      variant's dump it is one more (it counts the NUL). */
  lemma ValSizeVariants(p: ParsedChunk)
    requires WellFormed(p.chunk) && p.chunk.ctype == TextType && 0 in p.chunk.data
    ensures LineFor(p)[0].Entry?
    ensures |LineFor(p)[0].value| == SrcMain.DumpValSize(p.chunk) - 1
  {
    var k := FirstIndexOf(p.chunk.data, 0).value;
    assert DecodeText(p.chunk.data).value.0 == p.chunk.data[..k];
  }
}
