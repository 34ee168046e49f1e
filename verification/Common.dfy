/** Datatypes and sequence facts shared by the models. */
module Common {

  datatype Option<+T> = None | Some(value: T)

  datatype Result<+T, +E> = Ok(value: T) | Err(error: E)

  newtype byte = x: int | 0 <= x < 256

  /** The largest value of the source's unsigned 64-bit counters. */
  const U64_MAX: nat := 0xFFFF_FFFF_FFFF_FFFF

  function SaturatingNext(n: nat): nat {
    if n < U64_MAX then n + 1 else U64_MAX
  }

  ghost predicate NoDup<T>(s: seq<T>) {
    forall i, j :: 0 <= i < j < |s| ==> s[i] != s[j]
  }

  lemma Associative<T>(a: seq<T>, b: seq<T>, c: seq<T>)
    ensures (a + b) + c == a + (b + c)
  {
  }

  lemma {:induction false} SubsetSize<T>(a: set<T>, b: set<T>)
    requires a <= b
    ensures |a| <= |b|
  {
    if x :| x in a {
      SubsetSize(a - {x}, b - {x});
    }
  }

  /** What holds at `i`, and passes from each step to the next, holds at `j`. */
  lemma {:induction false} Chain(i: nat, j: nat, holds: nat -> bool)
    requires i <= j && holds(i)
    requires forall m: nat :: i <= m < j && holds(m) ==> holds(m + 1)
    ensures holds(j)
    decreases j
  {
    if i < j {
      Chain(i, j - 1, holds);
    }
  }

  function Elements<T>(s: seq<T>): set<T> {
    set x | x in s
  }

  /** The elements of `s` that are not in `dropped`, in their original order. */
  function Without<T(==)>(s: seq<T>, dropped: set<T>): (r: seq<T>)
    ensures |r| <= |s|
  {
    if s == [] then []
    else if s[0] in dropped then Without(s[1..], dropped)
    else [s[0]] + Without(s[1..], dropped)
  }

  lemma {:induction false} WithoutElements<T>(s: seq<T>, dropped: set<T>)
    ensures forall x :: x in Without(s, dropped) <==> x in s && x !in dropped
  {
    if s != [] {
      WithoutElements(s[1..], dropped);
      assert s == [s[0]] + s[1..];
    }
  }

  lemma {:induction false} WithoutNoDup<T>(s: seq<T>, dropped: set<T>)
    requires NoDup(s)
    ensures NoDup(Without(s, dropped))
  {
    if s != [] {
      WithoutNoDup(s[1..], dropped);
      WithoutElements(s[1..], dropped);
    }
  }

  lemma {:induction false} WithoutConcat<T>(s: seq<T>, t: seq<T>, dropped: set<T>)
    ensures Without(s + t, dropped) == Without(s, dropped) + Without(t, dropped)
  {
    if s == [] {
      assert s + t == t;
    } else {
      assert (s + t)[1..] == s[1..] + t;
      WithoutConcat(s[1..], t, dropped);
    }
  }

  /** Retaining shortens a sequence exactly when it removes something. */
  lemma {:induction false} WithoutShorter<T>(s: seq<T>, dropped: set<T>)
    ensures |Without(s, dropped)| == |s| <==> (forall x :: x in s ==> x !in dropped)
    ensures |Without(s, dropped)| == |s| ==> Without(s, dropped) == s
  {
    if s != [] {
      WithoutShorter(s[1..], dropped);
      assert s == [s[0]] + s[1..];
    }
  }

  /** Dropping two sets one after the other drops their union. */
  lemma {:induction false} WithoutTwice<T>(s: seq<T>, first: set<T>, second: set<T>)
    ensures Without(Without(s, first), second) == Without(s, first + second)
  {
    if s != [] {
      WithoutTwice(s[1..], first, second);
      if s[0] !in first {
        assert Without(s, first) == [s[0]] + Without(s[1..], first);
        assert Without(s, first)[1..] == Without(s[1..], first);
      }
    }
  }

  // ----- Text

  predicate StartsWith(text: string, prefix: string) { prefix <= text }

  /** Every occurrence of `c` replaced. */
  function Replace(text: string, c: char, with: string): string {
    if text == "" then ""
    else (if text[0] == c then with else [text[0]]) + Replace(text[1..], c, with)
  }
}
