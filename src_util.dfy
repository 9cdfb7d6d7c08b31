/** src/util.h: byte-order and string helpers of the first tool variant. */
module SrcUtil {
  import opened Wrappers
  import opened LibC
  import opened Png

  /** `endianswap`: reverse the four bytes of a 32-bit value. Each part
      masks one byte and shifts it by a whole number of bytes, which on an
      `unsigned int` is taking that byte and multiplying it by a power of
      256; the four parts share no bit, so the `|` that joins them adds. */
  function EndianSwap(value: uint32): (res: uint32)
  {
    var b0 := ByteOf(value, 0) as int * 0x100_0000;
    var b1 := ByteOf(value, 1) as int * 0x1_0000;
    var b2 := ByteOf(value, 2) as int * 0x100;
    var b3 := ByteOf(value, 3) as int;
    (b0 + b1 + b2 + b3) as uint32
  }

  /** Input byte k lands in byte 3 - k of the result. */
  lemma EndianSwapMovesBytes(value: uint32, k: nat)
    requires k < 4
    ensures ByteOf(EndianSwap(value), 3 - k) == ByteOf(value, k)
  {
    FromBytesDigits(ByteOf(value, 3), ByteOf(value, 2), ByteOf(value, 1), ByteOf(value, 0));
  }

  lemma EndianSwapInvolution(value: uint32)
    ensures EndianSwap(EndianSwap(value)) == value
  {
    var s := EndianSwap(value);
    FromBytesDigits(ByteOf(value, 3), ByteOf(value, 2), ByteOf(value, 1), ByteOf(value, 0));
    FromBytesDigits(ByteOf(s, 3), ByteOf(s, 2), ByteOf(s, 1), ByteOf(s, 0));
    ByteOfDecompose(value);
  }

  /** On a little-endian host, storing the swapped value with `memcpy` puts
      the original value in memory in network byte order. */
  lemma StoreSwappedIsBigEndian(value: uint32)
    ensures LeBytes(EndianSwap(value)) == BeBytes(value)
  {
    FromBytesDigits(ByteOf(value, 3), ByteOf(value, 2), ByteOf(value, 1), ByteOf(value, 0));
  }

  /** `getfilename`: the offset of the returned pointer into `path`. It is
      the last backslash if the path has one, otherwise the last slash,
      otherwise the start of the path; the separator stays in the suffix. */
  function GetFileName(path: string): (start: nat)
    ensures start <= |path|
    ensures '\\' in path ==> start < |path| && path[start] == '\\' && '\\' !in path[start + 1..]
    ensures '\\' !in path && '/' in path ==> start < |path| && path[start] == '/' && '/' !in path[start + 1..]
    ensures '\\' !in path && '/' !in path ==> start == 0
  {
    match LastIndexOf(path, '\\')
    case Some(i) => i
    case None =>
      match LastIndexOf(path, '/')
      case Some(i) => i
      case None => 0
  }

  /** A backslash anywhere in the path decides the result, even when a
      slash comes after it. */
  lemma {:induction false} BackslashBeatsLaterSlash(path: string, i: nat, j: nat)
    requires i < j < |path| && path[i] == '\\' && path[j] == '/'
    requires '\\' !in path[i + 1..]
    ensures GetFileName(path) == i
  {
  }

  /** `custom_strdup`: a fresh buffer of `strlen(str) + 1` characters
      holding a copy of the string and its terminator. C strings are
      modelled by their contents, which hold no NUL. */
  method CustomStrdup(str: string) returns (outstr: array<char>)
    requires '\0' !in str
    ensures fresh(outstr)
    ensures outstr.Length == |str| + 1
    ensures outstr[..|str|] == str && outstr[|str|] == '\0'
  {
    var slen := |str|;
    outstr := new char[slen + 1];
    // memcpy(outstr, str, slen)
    for i := 0 to slen
      invariant outstr[..i] == str[..i]
    {
      outstr[i] := str[i];
    }
    outstr[slen] := '\0';
    assert outstr[..slen] == str;
  }

  /** `strtol_or_die` of this variant: the conversion is kept in an `int`
      and rejected when nothing was consumed, when characters remain after
      the number, or when it equals `LONG_MIN`/`LONG_MAX` with `ERANGE`. */
  function StrtolOrDie(str: string, parsed: Strtol): (r: Result<int32, NumberError>)
    ensures r.Err? <==>
      parsed.consumed == 0 || parsed.consumed != |str| ||
      ((ToInt32(parsed.value) as int == LONG_MIN || ToInt32(parsed.value) as int == LONG_MAX) && parsed.erange)
    ensures r.Ok? ==> r.value == ToInt32(parsed.value)
    ensures r.Err? ==> r.error == NotANumber(str)
  {
    var number := ToInt32(parsed.value);
    if parsed.consumed == 0 || parsed.consumed != |str| ||
       ((number as int == LONG_MIN || number as int == LONG_MAX) && parsed.erange)
    then Err(NotANumber(str))
    else Ok(number)
  }

  /** Because the number is held in a 32-bit `int`, it can never equal the
      64-bit `LONG_MIN` or `LONG_MAX`: the range clause never fires, and the
      rule reduces to "something was consumed and nothing remains". */
  lemma StrtolRangeClauseInert(str: string, parsed: Strtol)
    ensures StrtolOrDie(str, parsed).Ok? <==> parsed.consumed != 0 && parsed.consumed == |str|
  {
  }

  /** An out-of-range number (strtol saturates at LONG_MAX and sets
      ERANGE) is accepted and becomes -1. */
  lemma StrtolOverflowAccepted()
    ensures StrtolOrDie("99999999999999999999", Strtol(LONG_MAX, 20, true)) == Ok(-1)
  {
  }
}
