/** pngmeta/util.h: the growable arrays `dynstr`/`dynint`, the `qsort`
    comparator `numcmp`, and this variant's `strtol_or_die`. Its
    `getfilename` is the same text as in src/util.h and is modelled once,
    by `SrcUtil.GetFileName`. */
module PngmetaUtil {
  import opened Wrappers
  import opened LibC
  import SrcUtil

  /** `enum PNGMETA_OP`. */
  datatype Op = OpNone | OpAddText | OpDumpText | OpRemoveText

  /** The `dynstr` (T = string) and `dynint` (T = int32) structs: a heap
      array `ptr` of `capacity` slots of which the first `size` are in use. */
  class DynArray<T(0)> {
    var capacity: nat
    var size: nat
    var ptr: array<T>

    ghost predicate Valid()
      reads this
    {
      1 <= capacity && capacity == ptr.Length && size <= capacity
    }

    /** The elements appended so far. */
    ghost function Contents(): seq<T>
      reads this, ptr
      requires Valid()
    {
      ptr[..size]
    }

    /** `dynstr_init(min_size)` / `dynint_init(min_size)`. Every use in the
        program passes a positive size; with 0 the array could never grow. */
    constructor Init(minSize: nat)
      requires minSize >= 1
      ensures Valid() && fresh(ptr)
      ensures capacity == minSize && size == 0 && Contents() == []
    {
      capacity := minSize;
      size := 0;
      ptr := new T[minSize];
    }

    /** `dynstr_add` / `dynint_add`: when full, double the capacity and
        move to a reallocated array that keeps the old elements; then store
        `val` at index `size` and bump `size`. */
    method Add(val: T)
      requires Valid()
      modifies this, ptr
      ensures Valid()
      ensures size == old(size) + 1
      ensures ptr[old(size)] == val
      ensures forall k :: 0 <= k < old(size) ==> ptr[k] == old(ptr[k])
      ensures Contents() == old(Contents()) + [val]
      ensures capacity == if old(size) >= old(capacity) then 2 * old(capacity) else old(capacity)
      ensures ptr == old(ptr) || fresh(ptr)
    {
      if size >= capacity {
        capacity := capacity * 2;
        // realloc: a new block holding the old block's elements
        var p := new T[capacity];
        var i := 0;
        while i < ptr.Length
          modifies p
          invariant 0 <= i <= ptr.Length < p.Length
          invariant forall k :: 0 <= k < i ==> p[k] == ptr[k]
        {
          p[i] := ptr[i];
          i := i + 1;
        }
        ptr := p;
      }
      ptr[size] := val;
      size := size + 1;
    }
  }

  /** `numcmp`: three-way comparison of two `int`s. */
  function NumCmp(x: int32, y: int32): (r: int)
    ensures r == -1 <==> x < y
    ensures r == 1 <==> x > y
    ensures r == 0 <==> x == y
  {
    if x < y then -1
    else if x > y then 1
    else 0
  }

  /** The order `qsort` sees through `numcmp`. */
  predicate CmpLe(x: int32, y: int32) {
    NumCmp(x, y) <= 0
  }

  /** `numcmp` is a valid comparator: antisymmetric in sign, and the order
      it induces is reflexive, antisymmetric, transitive and total. */
  lemma NumCmpIsTotalOrder(x: int32, y: int32, z: int32)
    ensures NumCmp(x, y) == -NumCmp(y, x)
    ensures CmpLe(x, x)
    ensures CmpLe(x, y) && CmpLe(y, x) ==> x == y
    ensures CmpLe(x, y) && CmpLe(y, z) ==> CmpLe(x, z)
    ensures CmpLe(x, y) || CmpLe(y, x)
  {
  }

  /** `strtol_or_die` of this variant: rejected when nothing was consumed,
      when characters remain after the number, or on `ERANGE`; otherwise the
      `long` is kept in an `int`. */
  function StrtolOrDie(str: string, parsed: Strtol): (r: Result<int32, NumberError>)
    ensures r.Err? <==> parsed.consumed == 0 || parsed.consumed != |str| || parsed.erange
    ensures r.Ok? ==> r.value == ToInt32(parsed.value)
    ensures r.Err? ==> r.error == NotANumber(str)
  {
    var number := ToInt32(parsed.value);
    if parsed.consumed == 0 || parsed.consumed != |str| || parsed.erange
    then Err(NotANumber(str))
    else Ok(number)
  }

  /** A number that fits a `long` but not an `int` is not an `ERANGE`
      error: it is accepted and silently truncated to 32 bits. */
  lemma StrtolTruncatesLong()
    ensures StrtolOrDie("4294967297", Strtol(4294967297, 10, false)) == Ok(1)
  {
  }

  /** The two variants agree whenever ERANGE is not set. */
  lemma {:induction false} StrtolVariantsAgree(str: string, parsed: Strtol)
    requires !parsed.erange
    ensures StrtolOrDie(str, parsed) == SrcUtil.StrtolOrDie(str, parsed)
  {
  }

  /** `getfilename` as pngmeta uses it on `dir/name` with a plain (no
      separator) name: the result starts at the last slash, so the returned
      suffix is "/name". */
  lemma {:induction false} GetFileNameOfJoin(dir: string, name: string)
    requires '\\' !in dir && '\\' !in name && '/' !in name
    requires |dir| > 0 && dir[|dir| - 1] == '/'
    ensures SrcUtil.GetFileName(dir + name) == |dir| - 1
    ensures (dir + name)[SrcUtil.GetFileName(dir + name)..] == "/" + name
  {
    var path := dir + name;
    assert path[|dir| - 1] == '/';
    assert path[|dir|..] == name;
    assert '\\' !in path;
    assert path[|dir| - 1..] == "/" + name;
  }
}
