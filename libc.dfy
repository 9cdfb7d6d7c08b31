/** The pieces of the C library the program leans on, stated by what they
    return: `memchr`/`strrchr` as first/last-occurrence searches, the C `int`
    type and the `long`-to-`int` conversion, and the observable outcome of
    `strtol`. */
module LibC {
  import opened Wrappers

  const INT_MIN: int := -0x8000_0000
  const INT_MAX: int := 0x7fff_ffff
  /** `long` is taken to be 64 bits wide (LP64). */
  const LONG_MIN: int := -0x8000_0000_0000_0000
  const LONG_MAX: int := 0x7fff_ffff_ffff_ffff

  /** A C `int`. */
  newtype int32 = x: int | -0x8000_0000 <= x < 0x8000_0000

  /** Assigning a `long` to an `int` keeps the low 32 bits (two's complement). */
  function ToInt32(v: int): (r: int32)
    ensures (r as int - v) % 0x1_0000_0000 == 0
    ensures INT_MIN <= v <= INT_MAX ==> r as int == v
  {
    var m := v % 0x1_0000_0000;
    if m <= INT_MAX then m as int32 else (m - 0x1_0000_0000) as int32
  }

  /** `memchr(s, x, |s|)`: the position of the first `x` in `s`, if any. */
  function FirstIndexOf<T(==)>(s: seq<T>, x: T): (r: Option<nat>)
    ensures r.None? <==> x !in s
    ensures r.Some? ==> r.value < |s| && s[r.value] == x && x !in s[..r.value]
  {
    if |s| == 0 then None
    else if s[0] == x then Some(0)
    else match FirstIndexOf(s[1..], x)
      case None => None
      case Some(i) =>
        assert s[..i + 1] == [s[0]] + s[1..][..i];
        Some(i + 1)
  }

  /** `strrchr(s, x)`: the position of the last `x` in `s`, if any. */
  function LastIndexOf<T(==)>(s: seq<T>, x: T): (r: Option<nat>)
    ensures r.None? <==> x !in s
    ensures r.Some? ==> r.value < |s| && s[r.value] == x && x !in s[r.value + 1..]
  {
    if |s| == 0 then None
    else if s[|s| - 1] == x then Some(|s| - 1)
    else match LastIndexOf(s[..|s| - 1], x)
      case None => None
      case Some(i) =>
        assert s[i + 1..] == s[..|s| - 1][i + 1..] + [s[|s| - 1]];
        Some(i)
  }

  /** The last occurrence is the one with no occurrence after it. */
  lemma LastIndexOfAt<T>(s: seq<T>, x: T, j: nat)
    requires j < |s| && s[j] == x && x !in s[j + 1..]
    ensures LastIndexOf(s, x) == Some(j)
  {
    var r := LastIndexOf(s, x).value;
    forall k | j < k < |s|
      ensures s[k] != x
    {
      assert s[k] == s[j + 1..][k - j - 1];
    }
    forall k | r < k < |s|
      ensures s[k] != x
    {
      assert s[k] == s[r + 1..][k - r - 1];
    }
  }

  /** What one call `strtol(s, &endptr, 0)` leaves behind: the `long` it
      returned, how many characters it consumed (`endptr - s`) and whether it
      set `errno` to `ERANGE`. The number syntax itself is not modelled; the
      caller supplies this outcome. */
  datatype Strtol = Strtol(value: int, consumed: nat, erange: bool)

  /** The diagnostic `strtol_or_die` exits with. */
  datatype NumberError = NotANumber(arg: string)
}
