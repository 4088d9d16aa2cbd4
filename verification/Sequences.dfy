/** Facts about finite sequences shared by the other modules. */
module Sequences {

  datatype Option<+T> = None | Some(value: T)

  function Elements<T>(s: seq<T>): set<T>
  {
    set x | x in s
  }

  ghost predicate NoDuplicates<T(!new)>(s: seq<T>)
  {
    forall i, j :: 0 <= i < j < |s| ==> s[i] != s[j]
  }

  lemma ConcatAssociative<T>(a: seq<T>, b: seq<T>, c: seq<T>)
    ensures (a + b) + c == a + (b + c)
  {
  }

  function Flatten<T>(s: seq<seq<T>>): seq<T>
  {
    if s == [] then [] else s[0] + Flatten(s[1..])
  }

  lemma {:induction false} FlattenAppend<T>(s: seq<seq<T>>, t: seq<seq<T>>)
    ensures Flatten(s + t) == Flatten(s) + Flatten(t)
  {
    if s == [] {
      assert s + t == t;
    } else {
      FlattenAppend(s[1..], t);
      assert (s + t)[1..] == s[1..] + t;
      ConcatAssociative(s[0], Flatten(s[1..]), Flatten(t));
    }
  }

  lemma FlattenSnoc<T>(s: seq<seq<T>>, x: seq<T>)
    ensures Flatten(s + [x]) == Flatten(s) + x
  {
    FlattenAppend(s, [x]);
    assert [x][1..] == [];
    assert Flatten([x]) == x + Flatten([]);
  }

  // s cut into consecutive pieces of the given size; only the last piece may be shorter.
  function Pieces<T>(s: seq<T>, size: nat): (p: seq<seq<T>>)
    requires size > 0
    decreases |s|
  {
    if s == [] then []
    else if |s| <= size then [s]
    else [s[..size]] + Pieces(s[size..], size)
  }

  lemma {:induction false} PiecesRebuild<T>(s: seq<T>, size: nat)
    requires size > 0
    ensures Flatten(Pieces(s, size)) == s
    ensures forall i :: 0 <= i < |Pieces(s, size)| ==> 0 < |Pieces(s, size)[i]| <= size
    ensures forall i :: 0 <= i < |Pieces(s, size)| - 1 ==> |Pieces(s, size)[i]| == size
    decreases |s|
  {
    if s == [] {
    } else if |s| <= size {
      assert Pieces(s, size) == [s];
      assert Flatten([s]) == s + Flatten([s][1..]);
    } else {
      PiecesRebuild(s[size..], size);
      var rest := Pieces(s[size..], size);
      assert Pieces(s, size) == [s[..size]] + rest;
      assert Pieces(s, size)[1..] == rest;
      assert s == s[..size] + s[size..];
    }
  }

  // n elements fill pieces of the given size exactly.
  predicate Whole(n: nat, size: nat)
    requires size > 0
  {
    n == 0 || (n >= size && Whole(n - size, size))
  }

  lemma {:induction false} WholeAddPiece(n: nat, size: nat)
    requires size > 0 && Whole(n, size)
    ensures Whole(n + size, size)
  {
  }

  lemma PiecesHead<T>(s: seq<T>, size: nat)
    requires size > 0 && |s| >= size
    ensures Pieces(s, size) == [s[..size]] + Pieces(s[size..], size)
  {
    if |s| == size {
      assert s[..size] == s && s[size..] == [];
    }
  }

  // A prefix made of whole pieces can be cut separately from the rest.
  lemma {:induction false} PiecesSplit<T>(s: seq<T>, t: seq<T>, size: nat)
    requires size > 0 && Whole(|s|, size)
    ensures Pieces(s + t, size) == Pieces(s, size) + Pieces(t, size)
    decreases |s|
  {
    if s == [] {
      assert s + t == t;
    } else {
      PiecesSplit(s[size..], t, size);
      assert (s + t)[..size] == s[..size] && (s + t)[size..] == s[size..] + t;
      PiecesHead(s, size);
      PiecesHead(s + t, size);
    }
  }
}
