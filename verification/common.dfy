/** Types and sequence facts shared by the models of the server's components. */
module Common {

  type byte = b: int | 0 <= b < 256

  datatype Option<+T> = None | Some(value: T)

  datatype Result<+T, +E> = Ok(value: T) | Err(error: E)

  const ESC: byte := 0x1b
  const BEL: byte := 0x07

  const MAX_INT := 0x7fff_ffff_ffff_ffff

  /** A byte that continues a UTF-8 character. */
  predicate IsContinuation(b: byte) {
    0x80 <= b < 0xc0
  }

  function Min(a: int, b: int): int {
    if a <= b then a else b
  }

  function Max(a: int, b: int): int {
    if a >= b then a else b
  }

  function Abs(n: int): (r: int)
    ensures r >= 0 && (r == n || r == -n)
  {
    if n < 0 then -n else n
  }

  /** Division as the source language does it: the quotient truncates toward zero. */
  function TruncDiv(n: int, d: int): int
    requires d > 0
  {
    if n >= 0 then n / d else -((-n) / d)
  }

  /** The most recent `n` elements of `s` (all of it when it is shorter). */
  function Tail<T>(s: seq<T>, n: nat): seq<T> {
    if |s| <= n then s else s[|s| - n..]
  }

  /** It is the end of `s`, and `n` long or all of `s`. */
  lemma TailIs<T>(s: seq<T>, n: nat)
    ensures var t := Tail(s, n); |t| == Min(|s|, n) && s == s[..|s| - |t|] + t
  {
  }

  /** Concatenation of a list of pieces, in order. */
  function Concat<T>(ss: seq<seq<T>>): seq<T> {
    if ss == [] then [] else Concat(ss[..|ss| - 1]) + ss[|ss| - 1]
  }

  lemma ConcatSnoc<T>(ss: seq<seq<T>>, s: seq<T>)
    ensures Concat(ss + [s]) == Concat(ss) + s
  {
    assert (ss + [s])[..|ss|] == ss;
  }

  lemma {:induction false} ConcatAppend<T>(a: seq<seq<T>>, b: seq<seq<T>>)
    ensures Concat(a + b) == Concat(a) + Concat(b)
    decreases |b|
  {
    if b == [] {
      assert a + b == a;
    } else {
      hide Concat;
      var (init, last) := (b[..|b| - 1], b[|b| - 1]);
      ConcatAppend(a, init);
      ConcatSnoc(a + init, last);
      ConcatSnoc(init, last);
      assert b == init + [last] && a + b == a + init + [last];
      assert Concat(a) + Concat(init) + last == Concat(a) + (Concat(init) + last);
    }
  }

  lemma {:induction false} SubsetCard<T>(a: set<T>, b: set<T>)
    requires a <= b
    ensures |a| <= |b|
  {
    if a != {} {
      var x :| x in a;
      SubsetCard(a - {x}, b - {x});
    }
  }

  lemma Times(s: int, a: int, b: int)
    requires s >= 0 && a <= b
    ensures s * a <= s * b
  {
  }

  /** Keeping a tail after every append loses nothing a tail of the whole would keep. */
  lemma TailOfTail<T>(s: seq<T>, p: seq<T>, n: nat)
    ensures Tail(Tail(s, n) + p, n) == Tail(s + p, n)
  {
    if |s| > n {
      var (u, t) := (s[..|s| - n], s[|s| - n..]);
      assert s == u + t;
      assert s + p == u + (t + p);
      assert (u + (t + p))[|u| + |p|..] == (t + p)[|p|..];
    }
  }
}
