/** The line handling shared by the journey page and the about section: a
    text split on "\n", the lines with some content kept, and lines
    trimmed. */
module Lines {
  import Text

  /** `lines.filter(l => l.trim())`: the lines with some non-whitespace
      character, in order. */
  function NonBlank(lines: seq<string>): (r: seq<string>)
    ensures |r| <= |lines|
    ensures forall x :: x in r ==> x in lines && Text.Trim(x) != ""
    ensures forall x :: x in lines && Text.Trim(x) != "" ==> x in r
  {
    if lines == [] then []
    else (if Text.Trim(lines[0]) != "" then [lines[0]] else []) + NonBlank(lines[1..])
  }

  /** `lines.map(l => l.trim())`. */
  function TrimEach(lines: seq<string>): (r: seq<string>)
    ensures |r| == |lines|
    ensures forall i :: 0 <= i < |lines| ==> r[i] == Text.Trim(lines[i])
  {
    seq(|lines|, i requires 0 <= i < |lines| => Text.Trim(lines[i]))
  }

  /** The first line is trimmed first, then the rest. */
  lemma TrimEachCons(lines: seq<string>)
    requires lines != []
    ensures TrimEach(lines) == [Text.Trim(lines[0])] + TrimEach(lines[1..])
  {
    var l, r := TrimEach(lines), [Text.Trim(lines[0])] + TrimEach(lines[1..]);
    assert |l| == |r|;
    forall i | 0 <= i < |l|
      ensures l[i] == r[i]
    {
      if i > 0 {
        assert r[i] == TrimEach(lines[1..])[i - 1];
        assert lines[1..][i - 1] == lines[i];
      }
    }
  }

  /** Every line `map(l => l.trim())` gives is trimmed. */
  lemma TrimEachTrimmed(lines: seq<string>)
    ensures forall x :: x in TrimEach(lines) ==> Text.Trimmed(x)
  {
    forall x | x in TrimEach(lines)
      ensures Text.Trimmed(x)
    {
      var i :| 0 <= i < |lines| && TrimEach(lines)[i] == x;
      Text.TrimSpec(lines[i]);
    }
  }

  /** `.filter(Boolean)` on strings: the non-empty ones, in order. */
  function NonEmpty(xs: seq<string>): (r: seq<string>)
    ensures |r| <= |xs|
    ensures forall x :: x in r <==> x in xs && x != ""
  {
    if xs == [] then []
    else (if xs[0] != "" then [xs[0]] else []) + NonEmpty(xs[1..])
  }

  /** Filtering is done line by line, so it keeps the order of the
      lines. */
  lemma {:induction false} NonBlankAppend(a: seq<string>, b: seq<string>)
    ensures NonBlank(a + b) == NonBlank(a) + NonBlank(b)
  {
    if a != [] {
      var head := if Text.Trim(a[0]) != "" then [a[0]] else [];
      assert (a + b)[0] == a[0];
      assert (a + b)[1..] == a[1..] + b;
      NonBlankAppend(a[1..], b);
      calc {
        NonBlank(a + b);
        head + NonBlank(a[1..] + b);
        head + (NonBlank(a[1..]) + NonBlank(b));
        (head + NonBlank(a[1..])) + NonBlank(b);
      }
    } else {
      assert a + b == b;
    }
  }

  lemma {:induction false} NonEmptyAppend(a: seq<string>, b: seq<string>)
    ensures NonEmpty(a + b) == NonEmpty(a) + NonEmpty(b)
  {
    if a != [] {
      assert (a + b)[1..] == a[1..] + b;
      NonEmptyAppend(a[1..], b);
    } else {
      assert a + b == b;
    }
  }

  /** Trimming then dropping the empty lines is dropping the blank lines
      then trimming. */
  lemma {:induction false} TrimThenDrop(lines: seq<string>)
    ensures NonEmpty(TrimEach(lines)) == TrimEach(NonBlank(lines))
  {
    if lines != [] {
      var h, t := lines[0], lines[1..];
      TrimThenDrop(t);
      var th := Text.Trim(h);
      TrimEachCons(lines);
      assert ([th] + TrimEach(t))[1..] == TrimEach(t);
      if th != "" {
        assert NonBlank(lines) == [h] + NonBlank(t);
        TrimEachCons(NonBlank(lines));
        assert NonBlank(lines)[1..] == NonBlank(t);
      }
    }
  }

  /** Every piece of a split is made of characters of the string. */
  lemma {:induction false} SplitPiecesFrom(s: string, sep: string)
    requires |sep| > 0
    ensures forall x, c :: x in Text.Split(s, sep) && c in x ==> c in s
    decreases |s|
  {
    match Text.IndexOf(s, sep)
    case None =>
    case Some(i) =>
      SplitPiecesFrom(s[i + |sep|..], sep);
      forall c | c in s[..i] || c in s[i + |sep|..]
        ensures c in s
      {
        if c in s[..i] {
          var j :| 0 <= j < i && s[..i][j] == c;
          assert s[j] == c;
        } else {
          var j :| 0 <= j < |s[i + |sep|..]| && s[i + |sep|..][j] == c;
          assert s[i + |sep| + j] == c;
        }
      }
  }

  /** A text that trims to nothing has only blank lines. */
  lemma {:induction false} BlankTextBlankLines(s: string)
    requires Text.Trim(s) == ""
    ensures NonBlank(Text.Split(s, "\n")) == []
  {
    var pieces := Text.Split(s, "\n");
    SplitPiecesFrom(s, "\n");
    Text.TrimEmpty(s);
    forall x | x in pieces
      ensures Text.Trim(x) == ""
    {
      BlankPiece(s, x, pieces);
    }
    NoneBlank(pieces);
  }

  lemma {:induction false} BlankPiece(s: string, x: string, pieces: seq<string>)
    requires forall i :: 0 <= i < |s| ==> Text.IsSpace(s[i])
    requires forall y, c :: y in pieces && c in y ==> c in s
    requires x in pieces
    ensures Text.Trim(x) == ""
  {
    forall i | 0 <= i < |x|
      ensures Text.IsSpace(x[i])
    {
      assert x[i] in x;
      var j :| 0 <= j < |s| && s[j] == x[i];
    }
    Text.TrimEmpty(x);
  }

  lemma {:induction false} NoneBlank(lines: seq<string>)
    requires forall x :: x in lines ==> Text.Trim(x) == ""
    ensures NonBlank(lines) == []
  {
    if lines != [] {
      assert lines[0] in lines;
      forall x | x in lines[1..]
        ensures Text.Trim(x) == ""
      {
        assert x in lines;
      }
      NoneBlank(lines[1..]);
    }
  }
}
