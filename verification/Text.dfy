/** Splitting, joining and trimming of sequences, as the string methods of the program do it. */
module Text {

  // ---------------------------------------------------------------- split and join

  /** The pieces between separators; always at least one. */
  function Split<T(==)>(s: seq<T>, sep: T): (pieces: seq<seq<T>>)
    ensures |pieces| >= 1
  {
    if |s| == 0 then [[]]
    else
      var rest := Split(s[1..], sep);
      if s[0] == sep then [[]] + rest else [[s[0]] + rest[0]] + rest[1..]
  }

  function Join<T>(pieces: seq<seq<T>>, sep: T): seq<T> {
    if |pieces| == 0 then []
    else if |pieces| == 1 then pieces[0]
    else pieces[0] + [sep] + Join(pieces[1..], sep)
  }

  ghost predicate NoneHolds<T>(pieces: seq<seq<T>>, x: T) {
    forall i :: 0 <= i < |pieces| ==> x !in pieces[i]
  }

  /** Split undoes to the string it came from, and no piece holds the separator. */
  lemma {:induction false} SplitMeaning<T>(s: seq<T>, sep: T)
    ensures Join(Split(s, sep), sep) == s
    ensures NoneHolds(Split(s, sep), sep)
    ensures forall i, x :: 0 <= i < |Split(s, sep)| && x in Split(s, sep)[i] ==> x in s
  {
    if |s| > 0 {
      var rest := Split(s[1..], sep);
      var all := Split(s, sep);
      SplitMeaning(s[1..], sep);
      assert all[1..] == if s[0] == sep then rest else rest[1..];
      if s[0] == sep {
        assert Join(all, sep) == [] + [sep] + Join(rest, sep);
      } else if |rest| > 1 {
        assert Join(all, sep) == [s[0]] + (rest[0] + [sep] + Join(rest[1..], sep));
      }
      assert s == [s[0]] + s[1..];
    }
  }

  lemma {:induction false} SplitFirst<T>(p: seq<T>, sep: T, rest: seq<T>)
    requires sep !in p
    ensures Split(p, sep) == [p]
    ensures Split(p + [sep] + rest, sep) == [p] + Split(rest, sep)
    decreases |p|
  {
    var s := p + [sep] + rest;
    if |p| == 0 {
      assert s[1..] == rest;
    } else {
      SplitFirst(p[1..], sep, rest);
      assert s[1..] == p[1..] + [sep] + rest;
      assert [p[0]] + p[1..] == p;
    }
  }

  /** Joining pieces without the separator and splitting gives them back. */
  lemma {:induction false} SplitJoin<T>(pieces: seq<seq<T>>, sep: T)
    requires |pieces| > 0 && NoneHolds(pieces, sep)
    ensures Split(Join(pieces, sep), sep) == pieces
  {
    if |pieces| == 1 {
      SplitFirst(pieces[0], sep, []);
    } else {
      SplitJoin(pieces[1..], sep);
      SplitFirst(pieces[0], sep, Join(pieces[1..], sep));
    }
  }

  // ---------------------------------------------------------------- words

  ghost predicate Solid<T>(w: seq<T>, blank: T -> bool) {
    forall i :: 0 <= i < |w| ==> !blank(w[i])
  }

  /** Length of the longest prefix without blanks. */
  function Run<T>(s: seq<T>, blank: T -> bool): (n: nat)
    ensures n <= |s|
    ensures forall i :: 0 <= i < n ==> !blank(s[i])
    ensures n < |s| ==> blank(s[n])
  {
    if |s| == 0 || blank(s[0]) then 0 else 1 + Run(s[1..], blank)
  }

  /** The maximal stretches without blanks. */
  function Words<T>(s: seq<T>, blank: T -> bool): seq<seq<T>>
    decreases |s|
  {
    if |s| == 0 then []
    else if blank(s[0]) then Words(s[1..], blank)
    else
      var n := Run(s, blank);
      [s[..n]] + Words(s[n..], blank)
  }

  lemma {:induction false} WordsAreSolid<T>(s: seq<T>, blank: T -> bool, i: nat)
    requires i < |Words(s, blank)|
    ensures |Words(s, blank)[i]| > 0 && Solid(Words(s, blank)[i], blank)
    decreases |s|
  {
    if |s| > 0 {
      if blank(s[0]) {
        WordsAreSolid(s[1..], blank, i);
      } else if i > 0 {
        WordsAreSolid(s[Run(s, blank)..], blank, i - 1);
      }
    }
  }

  /** What is left of a string without its blanks. */
  ghost function Kept<T>(s: seq<T>, blank: T -> bool): seq<T> {
    if |s| == 0 then [] else (if blank(s[0]) then [] else [s[0]]) + Kept(s[1..], blank)
  }

  ghost function Glue<T>(words: seq<seq<T>>): seq<T> {
    if |words| == 0 then [] else words[0] + Glue(words[1..])
  }

  lemma {:induction false} KeptConcat<T>(w: seq<T>, s: seq<T>, blank: T -> bool)
    requires Solid(w, blank)
    ensures Kept(w + s, blank) == w + Kept(s, blank)
  {
    if |w| == 0 {
      assert w + s == s;
    } else {
      assert (w + s)[1..] == w[1..] + s;
      KeptConcat(w[1..], s, blank);
      assert [w[0]] + (w[1..] + Kept(s, blank)) == w + Kept(s, blank);
    }
  }

  /** The words hold everything but the blanks, in order. */
  lemma {:induction false} WordsKeepTheRest<T>(s: seq<T>, blank: T -> bool)
    ensures Glue(Words(s, blank)) == Kept(s, blank)
    decreases |s|
  {
    if |s| > 0 {
      if blank(s[0]) {
        WordsKeepTheRest(s[1..], blank);
      } else {
        var n := Run(s, blank);
        WordsKeepTheRest(s[n..], blank);
        KeptConcat(s[..n], s[n..], blank);
        assert s[..n] + s[n..] == s;
      }
    }
  }

  lemma FirstWord<T>(w: seq<T>, space: T, rest: seq<T>, blank: T -> bool)
    requires |w| > 0 && Solid(w, blank) && blank(space)
    ensures Words(w, blank) == [w]
    ensures Words(w + [space] + rest, blank) == [w] + Words(rest, blank)
  {
    var s := w + [space] + rest;
    assert Run(w, blank) == |w| && w[..|w|] == w && Words(w[|w|..], blank) == [];
    assert s[0] == w[0];
    RunStops(w, space, rest, blank);
    assert s[..|w|] == w && s[|w|..] == [space] + rest && ([space] + rest)[1..] == rest;
  }

  lemma RunStops<T>(w: seq<T>, space: T, rest: seq<T>, blank: T -> bool)
    requires Solid(w, blank) && blank(space)
    ensures Run(w + [space] + rest, blank) == |w|
  {
    var s := w + [space] + rest;
    var n := Run(s, blank);
    assert s[|w|] == space;
    assert forall i :: 0 <= i < |w| ==> s[i] == w[i];
  }

  /** Joining words by a blank and splitting on blanks gives them back. */
  lemma {:induction false} WordsOfJoin<T>(words: seq<seq<T>>, space: T, blank: T -> bool)
    requires blank(space) && forall i :: 0 <= i < |words| ==> |words[i]| > 0 && Solid(words[i], blank)
    ensures Words(Join(words, space), blank) == words
  {
    if |words| > 0 {
      FirstWord(words[0], space, if |words| == 1 then [] else Join(words[1..], space), blank);
      if |words| > 1 {
        WordsOfJoin(words[1..], space, blank);
      }
    }
  }

  // ---------------------------------------------------------------- trim

  function TrimStart<T>(s: seq<T>, blank: T -> bool): seq<T> {
    if |s| > 0 && blank(s[0]) then TrimStart(s[1..], blank) else s
  }

  function TrimEnd<T>(s: seq<T>, blank: T -> bool): seq<T> {
    if |s| > 0 && blank(s[|s| - 1]) then TrimEnd(s[..|s| - 1], blank) else s
  }

  function Trim<T>(s: seq<T>, blank: T -> bool): seq<T> {
    TrimEnd(TrimStart(s, blank), blank)
  }

  ghost predicate AllBlank<T>(s: seq<T>, blank: T -> bool) {
    forall i :: 0 <= i < |s| ==> blank(s[i])
  }

  lemma {:induction false} TrimStartMeaning<T>(s: seq<T>, blank: T -> bool) returns (cut: seq<T>)
    ensures s == cut + TrimStart(s, blank) && AllBlank(cut, blank)
    ensures TrimStart(s, blank) == [] || !blank(TrimStart(s, blank)[0])
  {
    cut := [];
    if |s| > 0 && blank(s[0]) {
      var rest := TrimStartMeaning(s[1..], blank);
      cut := [s[0]] + rest;
    }
  }

  lemma {:induction false} TrimEndMeaning<T>(s: seq<T>, blank: T -> bool) returns (cut: seq<T>)
    ensures s == TrimEnd(s, blank) + cut && AllBlank(cut, blank)
    ensures TrimEnd(s, blank) == [] || !blank(TrimEnd(s, blank)[|TrimEnd(s, blank)| - 1])
  {
    cut := [];
    if |s| > 0 && blank(s[|s| - 1]) {
      var rest := TrimEndMeaning(s[..|s| - 1], blank);
      cut := rest + [s[|s| - 1]];
    }
  }

  /** Trimming cuts blanks off both ends, and all of them. */
  lemma TrimMeaning<T>(s: seq<T>, blank: T -> bool) returns (left: seq<T>, right: seq<T>)
    ensures s == left + Trim(s, blank) + right && AllBlank(left, blank) && AllBlank(right, blank)
    ensures var t := Trim(s, blank);
            t == [] || (!blank(t[0]) && !blank(t[|t| - 1]))
  {
    left := TrimStartMeaning(s, blank);
    right := TrimEndMeaning(TrimStart(s, blank), blank);
    var t := Trim(s, blank);
    assert t != [] ==> t[0] == TrimStart(s, blank)[0];
  }

  /** A string that neither starts nor ends with a blank is left alone. */
  lemma TrimNothing<T>(s: seq<T>, blank: T -> bool)
    requires |s| > 0 ==> !blank(s[0]) && !blank(s[|s| - 1])
    ensures Trim(s, blank) == s
  {
  }

  lemma {:induction false} JoinEnds<T>(pieces: seq<seq<T>>, sep: T)
    requires |pieces| > 0 && forall i :: 0 <= i < |pieces| ==> |pieces[i]| > 0
    ensures |Join(pieces, sep)| > 0
    ensures Join(pieces, sep)[0] == pieces[0][0]
    ensures var last := pieces[|pieces| - 1];
            Join(pieces, sep)[|Join(pieces, sep)| - 1] == last[|last| - 1]
  {
    if |pieces| > 1 {
      JoinEnds(pieces[1..], sep);
    }
  }

  lemma {:induction false} JoinSolid<T>(pieces: seq<seq<T>>, sep: T, blank: T -> bool)
    requires !blank(sep) && forall i :: 0 <= i < |pieces| ==> Solid(pieces[i], blank)
    ensures Solid(Join(pieces, sep), blank)
  {
    if |pieces| > 1 {
      JoinSolid(pieces[1..], sep, blank);
    }
  }

  /** One more piece at the end. */
  lemma {:induction false} JoinLast<T>(pieces: seq<seq<T>>, last: seq<T>, sep: T)
    ensures Join(pieces + [last], sep) == if |pieces| == 0 then last else Join(pieces, sep) + [sep] + last
  {
    if |pieces| > 0 {
      assert (pieces + [last])[1..] == pieces[1..] + [last];
      JoinLast(pieces[1..], last, sep);
    }
  }
}
