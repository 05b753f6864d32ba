/** Shared vocabulary: failure datatypes, machine-integer bounds and bytes. */
module Common {
  datatype Option<+T> = None | Some(value: T)

  datatype Result<+T, +E> = Ok(value: T) | Err(error: E)

  newtype byte = x: int | 0 <= x < 256

  /** A Rust string, by its UTF-8 bytes: `str` equality and `BTreeMap` key order are exactly
      equality and lexicographic order of these bytes. */
  type Text = seq<byte>

  /** A topic has at least one partition. */
  type PartitionCount = x: int | 1 <= x witness 1

  const U32_MAX: nat := 0xFFFF_FFFF
  const U64_MAX: nat := 0xFFFF_FFFF_FFFF_FFFF

  ghost predicate NoDuplicates<T>(s: seq<T>) {
    forall i, j :: 0 <= i < j < |s| ==> s[i] != s[j]
  }

  ghost function Elements<T>(s: seq<T>): set<T> {
    set x | x in s
  }

  lemma UpdateLast<T>(front: seq<T>, x: T, y: T)
    ensures (front + [x])[|front| := y] == front + [y]
  {
  }

  lemma ConcatDistinct<T>(a: seq<T>, b: seq<T>)
    requires NoDuplicates(a) && NoDuplicates(b) && forall x :: x in b ==> x !in a
    ensures NoDuplicates(a + b)
    ensures Elements(a + b) == Elements(a) + Elements(b)
  {
    forall i, j | 0 <= i < j < |a + b| ensures (a + b)[i] != (a + b)[j] {
      if i < |a| <= j { assert b[j - |a|] in b && a[i] in a; }
    }
    forall x ensures x in Elements(a + b) <==> x in Elements(a) + Elements(b) {
      assert x in a + b <==> x in a || x in b;
    }
  }

  lemma LastElement<T>(s: seq<T>)
    requires s != []
    ensures Elements(s) == Elements(s[..|s| - 1]) + {s[|s| - 1]}
    ensures NoDuplicates(s) ==> s[|s| - 1] !in s[..|s| - 1]
  {
    assert s == s[..|s| - 1] + [s[|s| - 1]];
  }

  lemma {:induction false} DistinctCount<T>(s: seq<T>)
    requires NoDuplicates(s)
    ensures |Elements(s)| == |s|
  {
    if s == [] {
      assert Elements(s) == {};
    } else {
      var init, last := s[..|s| - 1], s[|s| - 1];
      DistinctCount(init);
      assert s == init + [last];
      assert last !in Elements(init);
      assert Elements(s) == Elements(init) + {last} by {
        forall x ensures x in Elements(s) <==> x in Elements(init) + {last} {
          assert x in s <==> x in init || x == last;
        }
      }
    }
  }

  lemma {:induction false} ElementsBound<T>(s: seq<T>)
    ensures |Elements(s)| <= |s|
  {
    if s == [] {
      assert Elements(s) == {};
    } else {
      ElementsBound(s[..|s| - 1]);
      LastElement(s);
    }
  }
}
