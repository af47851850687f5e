/** Small value types shared by the migration model: optional values, results,
    substring search (Rust's `str::contains`) and first position in a list
    (Rust's `iter().position`). */
module Base {

  datatype Option<+T> = None | Some(value: T)

  datatype Result<+T, +E> = Ok(value: T) | Err(error: E)

  /** Concatenation is associative. */
  lemma AppendAssoc<T>(a: seq<T>, b: seq<T>, c: seq<T>)
    ensures a + b + c == a + (b + c)
  {
  }

  /** `needle` is a prefix of `hay`. */
  predicate IsPrefix(needle: string, hay: string) {
    |needle| <= |hay| && hay[..|needle|] == needle
  }

  /** `needle` occurs as a contiguous part of `hay`. */
  predicate Contains(hay: string, needle: string)
    decreases |hay|
  {
    IsPrefix(needle, hay) || (|hay| > 0 && Contains(hay[1..], needle))
  }

  /** Contains means: there is an offset at which `needle` starts in `hay`. */
  lemma {:induction false} ContainsAt(hay: string, needle: string)
    ensures Contains(hay, needle) <==>
      exists i :: 0 <= i <= |hay| - |needle| && IsPrefix(needle, hay[i..])
    decreases |hay|
  {
    if |hay| > 0 {
      ContainsAt(hay[1..], needle);
      assert hay[0..] == hay;
      if Contains(hay, needle) && !IsPrefix(needle, hay) {
        var i :| 0 <= i <= |hay| - 1 - |needle| && IsPrefix(needle, hay[1..][i..]);
        assert hay[1..][i..] == hay[i + 1..];
      }
      if exists i :: 0 <= i <= |hay| - |needle| && IsPrefix(needle, hay[i..]) {
        var i :| 0 <= i <= |hay| - |needle| && IsPrefix(needle, hay[i..]);
        if i > 0 {
          assert hay[1..][i - 1..] == hay[i..];
        }
      }
    } else {
      assert hay[0..] == hay;
      if exists i :: 0 <= i <= |hay| - |needle| && IsPrefix(needle, hay[i..]) {
        var i :| 0 <= i <= |hay| - |needle| && IsPrefix(needle, hay[i..]);
        assert hay[i..] == hay;
      }
    }
  }

  /** The first index at which `x` occurs in `xs`, if any. */
  function Position<T(==)>(xs: seq<T>, x: T): (r: Option<nat>)
    ensures r.Some? ==> r.value < |xs| && xs[r.value] == x
    ensures r.Some? ==> forall j :: 0 <= j < r.value ==> xs[j] != x
    ensures r.None? <==> x !in xs
  {
    if xs == [] then None
    else if xs[0] == x then Some(0)
    else match Position(xs[1..], x)
      case None => None
      case Some(k) => Some(k + 1)
  }
}
