/** Splitting a sequence at a separator and joining it again. */
module Delimited {

  predicate Free<T(==)>(piece: seq<T>, sep: T) {
    forall i :: 0 <= i < |piece| ==> piece[i] != sep
  }

  predicate AllFree<T(==)>(pieces: seq<seq<T>>, sep: T) {
    forall i :: 0 <= i < |pieces| ==> Free(pieces[i], sep)
  }

  /** One more element in front: it lengthens the first piece, or the separator starts a new one. */
  function Prepend<T(==)>(x: T, sep: T, pieces: seq<seq<T>>): (r: seq<seq<T>>)
    requires pieces != [] && AllFree(pieces, sep)
    ensures r != [] && AllFree(r, sep)
  {
    if x == sep then [[]] + pieces else [[x] + pieces[0]] + pieces[1..]
  }

  function Split<T(==)>(s: seq<T>, sep: T): (pieces: seq<seq<T>>)
    ensures pieces != [] && AllFree(pieces, sep)
  {
    if s == [] then [[]] else Prepend(s[0], sep, Split(s[1..], sep))
  }

  /** The pieces with the separator between each two; nothing for no pieces. */
  function Join<T>(pieces: seq<seq<T>>, sep: T): seq<T> {
    if pieces == [] then []
    else if |pieces| == 1 then pieces[0]
    else Join(pieces[..|pieces| - 1], sep) + [sep] + pieces[|pieces| - 1]
  }

  lemma JoinAppend<T>(pieces: seq<seq<T>>, piece: seq<T>, sep: T)
    ensures Join(pieces + [piece], sep) == if pieces == [] then piece else Join(pieces, sep) + [sep] + piece
  {
    assert (pieces + [piece])[..|pieces|] == pieces;
  }

  lemma {:induction false} JoinHead<T>(pieces: seq<seq<T>>, sep: T)
    requires |pieces| >= 2
    ensures Join(pieces, sep) == pieces[0] + [sep] + Join(pieces[1..], sep)
  {
    var last := |pieces| - 1;
    if last == 1 {
      assert pieces[..1] == [pieces[0]] && pieces[1..] == [pieces[1]];
    } else {
      JoinHead(pieces[..last], sep);
      assert pieces[..last][1..] == pieces[1..][..last - 1];
      assert Join(pieces[1..], sep) == Join(pieces[1..][..last - 1], sep) + [sep] + pieces[last];
    }
  }

  lemma {:induction false} SplitOfFree<T>(piece: seq<T>, sep: T)
    requires Free(piece, sep)
    ensures Split(piece, sep) == [piece]
  {
    if piece != [] {
      SplitOfFree(piece[1..], sep);
      assert [piece[0]] + piece[1..] == piece;
    }
  }

  lemma SplitOfCons<T>(x: T, s: seq<T>, sep: T)
    ensures Split([x] + s, sep) == Prepend(x, sep, Split(s, sep))
  {
    assert ([x] + s)[1..] == s;
  }

  lemma PrependAppend<T>(x: T, sep: T, first: seq<seq<T>>, second: seq<seq<T>>)
    requires first != [] && AllFree(first, sep) && AllFree(second, sep)
    ensures AllFree(first + second, sep)
    ensures Prepend(x, sep, first + second) == Prepend(x, sep, first) + second
  {
  }

  /** A separator in the middle cuts the work in two. */
  lemma {:induction false} SplitOfConcat<T>(a: seq<T>, b: seq<T>, sep: T)
    ensures Split(a + [sep] + b, sep) == Split(a, sep) + Split(b, sep)
  {
    if a == [] {
      assert a + [sep] + b == [sep] + b;
      SplitOfCons(sep, b, sep);
    } else {
      var x, rest := a[0], a[1..];
      SplitOfConcat(rest, b, sep);
      SplitOfCons(x, rest + [sep] + b, sep);
      PrependAppend(x, sep, Split(rest, sep), Split(b, sep));
      assert a + [sep] + b == [x] + (rest + [sep] + b);
    }
  }

  /** Splitting undoes joining. */
  lemma {:induction false} SplitOfJoin<T>(pieces: seq<seq<T>>, sep: T)
    requires pieces != [] && AllFree(pieces, sep)
    ensures Split(Join(pieces, sep), sep) == pieces
  {
    var last := |pieces| - 1;
    SplitOfFree(pieces[last], sep);
    if last > 0 {
      SplitOfJoin(pieces[..last], sep);
      SplitOfConcat(Join(pieces[..last], sep), pieces[last], sep);
    }
  }

  lemma {:induction false} JoinOfPrepend<T>(x: T, sep: T, pieces: seq<seq<T>>)
    requires pieces != [] && AllFree(pieces, sep)
    ensures Join(Prepend(x, sep, pieces), sep) == [x] + Join(pieces, sep)
  {
    var longer := Prepend(x, sep, pieces);
    if x == sep {
      JoinHead(longer, sep);
      assert longer[1..] == pieces;
    } else if |pieces| > 1 {
      JoinHead(pieces, sep);
      JoinHead(longer, sep);
      assert longer[1..] == pieces[1..];
    }
  }

  /** Joining undoes splitting. */
  lemma {:induction false} JoinOfSplit<T>(s: seq<T>, sep: T)
    ensures Join(Split(s, sep), sep) == s
  {
    if s != [] {
      JoinOfSplit(s[1..], sep);
      JoinOfPrepend(s[0], sep, Split(s[1..], sep));
    }
  }
}
