/** The timetable normaliser: each raw calendar event becomes one flat row
    (course name, room, programmes, sites, modules), and the rows are sorted
    by start time. `html.unescape` and `datetime.fromisoformat` are passed in
    as functions. */
module EdtParser {

  import opened Wrappers
  import opened Text
  import Sorting

  /** A raw event as loaded from the calendar export. `description`, `start`
      and `end` are read with `event[...]`; the other keys may be missing. */
  datatype Event = Event(
    description: string,
    start: string,
    end: string,
    eventCategory: Field<string>,
    sites: Field<seq<string>>,
    modules: Field<seq<string>>)

  /** The flat row; `kind` is the `type` column. */
  datatype CleanRow = CleanRow(
    id: string,
    kind: Option<string>,
    debut: string,
    fin: string,
    cours: string,
    salle: string,
    batiment: string,
    formation: string,
    moduleName: string)

  // ---------------------------------------------------------------------
  // Splitting the description into lines
  // ---------------------------------------------------------------------

  /** A whole separator: `<br`, optional whitespace, an optional `/`, then
      `>`; or a single `\n` or `\r`. */
  predicate IsSeparator(t: string)
  {
    || t == "\n" || t == "\r"
    || (|t| >= 4 && t[..3] == "<br" && t[|t| - 1] == '>' && AllSpace(t[3..|t| - 1]))
    || (|t| >= 5 && t[..3] == "<br" && t[|t| - 2] == '/' && t[|t| - 1] == '>' && AllSpace(t[3..|t| - 2]))
  }

  /** Where a separator that starts `s` can end: a line break is one
      character long, and a `<br…>` tag ends at the first character after
      `<br` and its whitespace run. */
  lemma SeparatorStart(s: string, k: nat)
    requires 0 < k <= |s| && IsSeparator(s[..k])
    ensures || ((s[0] == '\n' || s[0] == '\r') && k == 1)
            || (StartsWith(s, "<br") &&
                var m := 3 + SpaceRun(s[3..]);
                || (m < |s| && s[m] == '>' && k == m + 1)
                || (m + 1 < |s| && s[m] == '/' && s[m + 1] == '>' && k == m + 2))
  {
    var t := s[..k];
    assert forall i :: 0 <= i < k ==> t[i] == s[i];
    if t == "\n" || t == "\r" {
      assert s[0] == t[0];
    } else {
      assert |t| >= 4 && t[..3] == "<br";
      assert s[..3] == t[..3];
      if t[k - 1] == '>' && AllSpace(t[3..k - 1]) {
        forall i | 3 <= i < k - 1 ensures IsSpace(s[i]) {
          assert t[3..k - 1][i - 3] == t[i];
        }
        RunEndsAt(s, k - 1);
      } else {
        assert t[k - 2] == '/' && AllSpace(t[3..k - 2]);
        forall i | 3 <= i < k - 2 ensures IsSpace(s[i]) {
          assert t[3..k - 2][i - 3] == t[i];
        }
        RunEndsAt(s, k - 2);
      }
    }
  }

  /** A run of whitespace from position 3 that stops at a visible character
      is the whole run. */
  lemma RunEndsAt(s: string, e: nat)
    requires 3 <= e < |s| && !IsSpace(s[e])
    requires forall i :: 3 <= i < e ==> IsSpace(s[i])
    ensures e == 3 + SpaceRun(s[3..])
  {
    var m := SpaceRun(s[3..]);
    assert 3 + m <= e;
    assert s[3 + m] == s[3..][m];
  }

  /** A `<br` tag closed by `>` after the whitespace ending at `k`. */
  lemma TagSeparator(s: string, k: nat)
    requires 3 <= k < |s| && StartsWith(s, "<br") && AllSpace(s[3..k]) && s[k] == '>'
    ensures IsSeparator(s[..k + 1])
  {
    var t := s[..k + 1];
    assert t[..3] == s[..3] && t[3..|t| - 1] == s[3..k];
  }

  /** A `<br` tag closed by `/>` after the whitespace ending at `k`. */
  lemma SelfClosingSeparator(s: string, k: nat)
    requires 3 <= k && k + 1 < |s| && StartsWith(s, "<br") && AllSpace(s[3..k])
    requires s[k] == '/' && s[k + 1] == '>'
    ensures IsSeparator(s[..k + 2])
  {
    var t := s[..k + 2];
    assert t[..3] == s[..3] && t[3..|t| - 2] == s[3..k];
  }

  /** Length of the separator that starts `s`, or 0 when none does. The
      whitespace after `<br` is taken greedily; since neither `/` nor `>` is
      whitespace, no shorter choice could match instead, so the separator
      found is the only one there is. */
  function SeparatorAt(s: string): (n: nat)
    ensures n <= |s|
    ensures n > 0 ==> IsSeparator(s[..n])
    ensures n == 0 ==> |s| == 0 || (s[0] != '\n' && s[0] != '\r')
    ensures forall k {:trigger IsSeparator(s[..k])} :: 0 < k <= |s| && IsSeparator(s[..k]) ==> k == n
  {
    var n :=
      if |s| > 0 && (s[0] == '\n' || s[0] == '\r') then
        assert s[..1] == [s[0]];
        1
      else if StartsWith(s, "<br") then
        var k := 3 + SpaceRun(s[3..]);
        assert AllSpace(s[3..k]) by {
          assert s[3..k] == s[3..][..k - 3];
        }
        if k < |s| && s[k] == '>' then
          TagSeparator(s, k);
          k + 1
        else if k + 1 < |s| && s[k] == '/' && s[k + 1] == '>' then
          SelfClosingSeparator(s, k);
          k + 2
        else 0
      else 0;
    assert forall k :: 0 < k <= |s| && IsSeparator(s[..k]) ==> k == n by {
      forall k | 0 < k <= |s| && IsSeparator(s[..k]) ensures k == n {
        SeparatorStart(s, k);
      }
    }
    n
  }


  /** `re.split` on the pattern "`<br`, whitespace, optional `/`, `>`, or a
      line feed, or a carriage return": the pieces between separators, found
      left to right. */
  function SplitLines(s: string): (r: seq<string>)
    ensures |r| > 0
    decreases |s|
  {
    if |s| == 0 then [""]
    else
      var n := SeparatorAt(s);
      if n > 0 then [""] + SplitLines(s[n..])
      else
        var rest := SplitLines(s[1..]);
        [[s[0]] + rest[0]] + rest[1..]
  }

  /** The separators `SplitLines` consumed, in order. */
  function Separators(s: string): (r: seq<string>)
    ensures |r| == |SplitLines(s)| - 1
    decreases |s|
  {
    if |s| == 0 then []
    else
      var n := SeparatorAt(s);
      if n > 0 then [s[..n]] + Separators(s[n..]) else Separators(s[1..])
  }

  /** Pieces with the separators put back between them. */
  function Interleave(pieces: seq<string>, seps: seq<string>): string
    requires |pieces| == |seps| + 1
  {
    if |seps| == 0 then pieces[0]
    else pieces[0] + seps[0] + Interleave(pieces[1..], seps[1..])
  }

  lemma InterleaveHead(c: char, pieces: seq<string>, seps: seq<string>)
    requires |pieces| == |seps| + 1
    ensures Interleave([[c] + pieces[0]] + pieces[1..], seps) == [c] + Interleave(pieces, seps)
  {
    var ps := [[c] + pieces[0]] + pieces[1..];
    assert ps[1..] == pieces[1..];
  }

  lemma InterleaveCons(p: string, sep: string, pieces: seq<string>, seps: seq<string>)
    requires |pieces| == |seps| + 1
    ensures Interleave([p] + pieces, [sep] + seps) == p + sep + Interleave(pieces, seps)
  {
    assert ([p] + pieces)[1..] == pieces;
    assert ([sep] + seps)[1..] == seps;
  }

  /** One step of the split: a separator at the front opens a new piece,
      any other character joins the first piece. */
  lemma SplitStep(s: string)
    requires |s| > 0
    ensures var n := SeparatorAt(s);
      if n > 0 then
        SplitLines(s) == [""] + SplitLines(s[n..]) && Separators(s) == [s[..n]] + Separators(s[n..])
      else
        SplitLines(s) == [[s[0]] + SplitLines(s[1..])[0]] + SplitLines(s[1..])[1..]
        && Separators(s) == Separators(s[1..])
  {
  }

  /** No piece contains a line break. */
  lemma {:induction false} SplitLinesNoBreaks(s: string)
    ensures forall i :: 0 <= i < |SplitLines(s)| ==> '\n' !in SplitLines(s)[i] && '\r' !in SplitLines(s)[i]
    decreases |s|
  {
    if |s| > 0 {
      var n := SeparatorAt(s);
      SplitStep(s);
      if n > 0 {
        SplitLinesNoBreaks(s[n..]);
      } else {
        SplitLinesNoBreaks(s[1..]);
        var rest := SplitLines(s[1..]);
        var first := [s[0]] + rest[0];
        assert '\n' !in first && '\r' !in first by {
          assert forall c :: c in first ==> c == s[0] || c in rest[0];
        }
        assert SplitLines(s) == [first] + rest[1..];
        assert forall i :: 1 <= i < |SplitLines(s)| ==> SplitLines(s)[i] == rest[i];
      }
    }
  }

  /** Everything the split consumed is a whole separator. */
  lemma {:induction false} SeparatorsAreSeparators(s: string)
    ensures forall i :: 0 <= i < |Separators(s)| ==> IsSeparator(Separators(s)[i])
    decreases |s|
  {
    if |s| > 0 {
      var n := SeparatorAt(s);
      SplitStep(s);
      if n > 0 {
        SeparatorsAreSeparators(s[n..]);
      } else {
        SeparatorsAreSeparators(s[1..]);
      }
    }
  }

  /** Putting a separator back in front of the rest of the text. */
  lemma ReassembleAtSeparator(s: string, n: nat, pieces: seq<string>, seps: seq<string>)
    requires 0 < n <= |s| && |pieces| == |seps| + 1
    requires Interleave(pieces, seps) == s[n..]
    ensures Interleave([""] + pieces, [s[..n]] + seps) == s
  {
    InterleaveCons("", s[..n], pieces, seps);
    assert "" + s[..n] == s[..n];
    assert s == s[..n] + s[n..];
  }

  /** Putting a plain character back in front of the rest of the text. */
  lemma ReassembleAfterPlainChar(s: string, pieces: seq<string>, seps: seq<string>)
    requires |s| > 0 && |pieces| == |seps| + 1
    requires Interleave(pieces, seps) == s[1..]
    ensures Interleave([[s[0]] + pieces[0]] + pieces[1..], seps) == s
  {
    InterleaveHead(s[0], pieces, seps);
    assert s == [s[0]] + s[1..];
  }

  /** The split loses nothing: the pieces and the separators between them
      spell out the description again. */
  lemma {:induction false} SplitLinesReassembles(s: string)
    ensures Interleave(SplitLines(s), Separators(s)) == s
    decreases |s|
  {
    if |s| > 0 {
      var n := SeparatorAt(s);
      SplitStep(s);
      if n > 0 {
        SplitLinesReassembles(s[n..]);
        ReassembleAtSeparator(s, n, SplitLines(s[n..]), Separators(s[n..]));
      } else {
        SplitLinesReassembles(s[1..]);
        ReassembleAfterPlainChar(s, SplitLines(s[1..]), Separators(s[1..]));
      }
    }
  }

  /** Without a separator at the front, the first character opens the
      first piece and the rest splits as before. */
  lemma SplitPlainStep(s: string)
    requires |s| > 0 && SeparatorAt(s) == 0
    ensures var rest := SplitLines(s[1..]);
      && |SplitLines(s)| == |rest|
      && SplitLines(s)[0] == [s[0]] + rest[0]
      && forall i :: 1 <= i < |rest| ==> SplitLines(s)[i] == rest[i]
  {
    var rest := SplitLines(s[1..]);
    assert SplitLines(s) == [[s[0]] + rest[0]] + rest[1..];
  }

  /** The first piece is the text up to the first separator. */
  lemma {:induction false} FirstPieceIsPrefix(s: string)
    ensures StartsWith(s, SplitLines(s)[0])
    decreases |s|
  {
    if |s| > 0 && SeparatorAt(s) == 0 {
      SplitPlainStep(s);
      FirstPieceIsPrefix(s[1..]);
      var p := SplitLines(s[1..])[0];
      assert s[1..][..|p|] == p;
      assert s[..|p| + 1] == [s[0]] + s[1..][..|p|];
    }
  }

  /** No stretch of `p` is a separator. */
  predicate NoSeparatorIn(p: string)
  {
    forall a, b :: 0 <= a < b <= |p| ==> !IsSeparator(p[a..b])
  }

  /** A character that does not start a separator, put in front of a
      separator-free piece that follows it in the text, leaves the piece
      separator-free. */
  lemma NoSeparatorCons(s: string, p: string)
    requires |s| > 0 && SeparatorAt(s) == 0
    requires NoSeparatorIn(p) && StartsWith(s, [s[0]] + p)
    ensures NoSeparatorIn([s[0]] + p)
  {
    var q := [s[0]] + p;
    assert s[..|q|] == q;
    forall a, b | 0 <= a < b <= |q| ensures !IsSeparator(q[a..b]) {
      if a == 0 {
        assert q[..b] == s[..|q|][..b] == s[..b];
      } else {
        assert q[a..b] == p[a - 1..b - 1];
      }
    }
  }

  /** The split is complete: no piece contains a separator anywhere, so
      every `<br>`-style tag and every line break of the description was cut
      at. */
  lemma {:induction false} PiecesHaveNoSeparator(s: string)
    ensures forall i :: 0 <= i < |SplitLines(s)| ==> NoSeparatorIn(SplitLines(s)[i])
    decreases |s|
  {
    if |s| > 0 {
      var n := SeparatorAt(s);
      if n > 0 {
        SplitStep(s);
        PiecesHaveNoSeparator(s[n..]);
        var ps := SplitLines(s);
        assert forall i :: 1 <= i < |ps| ==> ps[i] == SplitLines(s[n..])[i - 1];
      } else {
        SplitPlainStep(s);
        PiecesHaveNoSeparator(s[1..]);
        FirstPieceIsPrefix(s);
        NoSeparatorCons(s, SplitLines(s[1..])[0]);
      }
    }
  }

  /** No separator starts inside the first piece. */
  lemma {:induction false} FirstPieceHasNoSeparatorStart(s: string)
    ensures |SplitLines(s)[0]| <= |s|
    ensures forall j :: 0 <= j < |SplitLines(s)[0]| ==> SeparatorAt(s[j..]) == 0
    decreases |s|
  {
    if |s| > 0 && SeparatorAt(s) == 0 {
      var t := s[1..];
      SplitPlainStep(s);
      FirstPieceHasNoSeparatorStart(t);
      assert s[0..] == s;
      assert forall j :: 1 <= j <= |s| ==> s[j..] == t[j - 1..];
    }
  }

  /** After the first piece comes a whole separator and then the split of
      the rest; a first piece that is the whole text is the only piece. */
  predicate SplitsAfterFirstPiece(s: string)
  {
    AfterFirstPiece(s, SplitLines(s))
  }

  predicate AfterFirstPiece(s: string, pieces: seq<string>)
  {
    && |pieces| > 0
    && var p := pieces[0];
    && |p| <= |s|
    && (|p| < |s| ==>
          SeparatorAt(s[|p|..]) > 0
          && pieces[1..] == SplitLines(s[|p| + SeparatorAt(s[|p|..])..]))
    && (|p| == |s| ==> |pieces| == 1)
  }

  lemma {:induction false} SplitAfterFirstPiece(s: string)
    ensures SplitsAfterFirstPiece(s)
    decreases |s|
  {
    if |s| > 0 {
      if SeparatorAt(s) > 0 {
        SplitStep(s);
        assert s[0..] == s;
      } else {
        var t := s[1..];
        SplitAfterFirstPiece(t);
        SplitPlainStep(s);
        var ps, pt := SplitLines(s), SplitLines(t);
        SameTail(ps, pt);
        AfterFirstPieceCons(s, ps, pt);
      }
    }
  }

  /** A character that starts no separator joins the first piece and
      changes nothing after it. */
  lemma AfterFirstPieceCons(s: string, ps: seq<string>, pt: seq<string>)
    requires |s| > 0 && AfterFirstPiece(s[1..], pt)
    requires |ps| == |pt| && ps[0] == [s[0]] + pt[0] && ps[1..] == pt[1..]
    ensures AfterFirstPiece(s, ps)
  {
    var t := s[1..];
    var q := pt[0];
    if |q| < |t| {
      var m := SeparatorAt(t[|q|..]);
      SliceShift(s, |q|);
      SliceShift(s, |q| + m);
    }
  }

  lemma SliceShift<X>(s: seq<X>, k: nat)
    requires 0 < |s| && k < |s|
    ensures s[1..][k..] == s[k + 1..]
  {
  }

  lemma SameTail<X>(a: seq<X>, b: seq<X>)
    requires |a| == |b| > 0
    requires forall i :: 1 <= i < |a| ==> a[i] == b[i]
    ensures a[1..] == b[1..]
  {
  }

  /** The split matches leftmost, as `re.split` scans: the first piece is
      the prefix up to the first position where a separator starts; that
      separator is consumed whole and the rest is split the same way. With
      `SeparatorAt`'s uniqueness this fixes every piece. */
  lemma SplitLinesLeftmost(s: string)
    ensures StartsWith(s, SplitLines(s)[0])
    ensures forall j :: 0 <= j < |SplitLines(s)[0]| ==> SeparatorAt(s[j..]) == 0
    ensures SplitsAfterFirstPiece(s)
  {
    FirstPieceIsPrefix(s);
    FirstPieceHasNoSeparatorStart(s);
    SplitAfterFirstPiece(s);
  }

  /** `list(filter(str.strip, pieces))`: the pieces that are not blank,
      in order and untrimmed. */
  function NonBlank(pieces: seq<string>): (r: seq<string>)
    ensures |r| <= |pieces|
    ensures forall i :: 0 <= i < |r| ==> !AllSpace(r[i]) && r[i] in pieces
    ensures forall i :: 0 <= i < |pieces| && !AllSpace(pieces[i]) ==> pieces[i] in r
  {
    if |pieces| == 0 then []
    else
      var rest := NonBlank(pieces[1..]);
      assert forall i :: 1 <= i < |pieces| ==> pieces[i] == pieces[1..][i - 1];
      if Strip(pieces[0]) != "" then [pieces[0]] + rest else rest
  }

  /** The filter keeps order and multiplicity: it works piece by piece,
      keeping a piece exactly when it is not blank. */
  lemma {:induction false} NonBlankAppend(a: seq<string>, b: seq<string>)
    ensures NonBlank(a + b) == NonBlank(a) + NonBlank(b)
    ensures |a| == 1 ==> NonBlank(a) == (if AllSpace(a[0]) then [] else [a[0]])
    decreases |a|
  {
    if |a| > 0 {
      assert (a + b)[1..] == a[1..] + b;
      NonBlankAppend(a[1..], b);
      if |a| == 1 {
        assert a[1..] == [];
      }
    } else {
      assert a + b == b;
    }
  }

  /** The non-blank lines of an (already unescaped) description. */
  function Lines(description: string): (r: seq<string>)
    ensures forall i :: 0 <= i < |r| ==> '\n' !in r[i] && '\r' !in r[i] && !AllSpace(r[i])
  {
    var pieces := SplitLines(description);
    SplitLinesNoBreaks(description);
    var r := NonBlank(pieces);
    assert forall i :: 0 <= i < |r| ==> exists j :: 0 <= j < |pieces| && r[i] == pieces[j];
    r
  }

  /** A character that is neither `<` nor a line break never starts a
      separator. */
  predicate Plain(p: string)
  {
    '<' !in p && '\n' !in p && '\r' !in p
  }

  /** A text opening with a character that cannot start a separator has
      none at its front. */
  lemma NoSeparatorAtPlainHead(s: string)
    requires |s| > 0 && s[0] != '<' && s[0] != '\n' && s[0] != '\r'
    ensures SeparatorAt(s) == 0
  {
    assert !StartsWith(s, "<br");
  }

  /** A character that opens no separator joins the first piece of the
      rest. */
  lemma HeadJoinsFirstPiece(u: string, q: string, rest: seq<string>)
    requires |u| > 0 && SeparatorAt(u) == 0
    requires SplitLines(u[1..]) == [q] + rest
    ensures SplitLines(u) == [[u[0]] + q] + rest
  {
    var r := SplitLines(u[1..]);
    assert r[0] == q && r[1..] == rest;
  }

  /** A plain text's first character joins the first piece of the rest. */
  lemma PlainHeadJoinsFirstPiece(p: string, t: string, first: string, rest: seq<string>)
    requires Plain(p) && |p| > 0
    requires SplitLines(p[1..] + t) == [p[1..] + first] + rest
    ensures SplitLines(p + t) == [p + first] + rest
  {
    var u := p + t;
    assert u[0] == p[0] && u[1..] == p[1..] + t;
    NoSeparatorAtPlainHead(u);
    HeadJoinsFirstPiece(u, p[1..] + first, rest);
    var joined := [u[0]] + (p[1..] + first);
    assert joined == p + first by {
      HeadThenTail(p, first);
    }
  }

  /** Taking off the head of `p` and putting it back. */
  lemma HeadThenTail<X>(p: seq<X>, x: seq<X>)
    requires |p| > 0
    ensures [p[0]] + (p[1..] + x) == p + x
  {
    assert p == [p[0]] + p[1..];
  }

  lemma {:induction false} SplitPlainPrefix(p: string, t: string)
    requires Plain(p)
    ensures SplitLines(p + t) == [p + SplitLines(t)[0]] + SplitLines(t)[1..]
    decreases |p|
  {
    var ts := SplitLines(t);
    if |p| > 0 {
      SplitPlainPrefix(p[1..], t);
      PlainHeadJoinsFirstPiece(p, t, ts[0], ts[1..]);
    } else {
      assert p + t == t && p + ts[0] == ts[0];
      assert ts == [ts[0]] + ts[1..];
    }
  }

  lemma SplitAtSeparator(sep: string, t: string)
    requires IsSeparator(sep)
    ensures SplitLines(sep + t) == [""] + SplitLines(t)
  {
    var u := sep + t;
    assert u[..|sep|] == sep;
    assert SeparatorAt(u) == |sep|;
    assert u[|sep|..] == t;
  }

  /** Splitting undoes joining: lines free of `<` and line breaks, joined
      with any one separator, split back into exactly those lines. */
  lemma {:induction false} SplitJoined(sep: string, parts: seq<string>)
    requires IsSeparator(sep) && |parts| > 0
    requires forall i :: 0 <= i < |parts| ==> Plain(parts[i])
    ensures SplitLines(Join(sep, parts)) == parts
    decreases |parts|
  {
    if |parts| == 1 {
      SplitPlainPrefix(parts[0], "");
      assert parts[0] + "" == parts[0];
    } else {
      JoinCons(sep, parts);
      SplitJoined(sep, parts[1..]);
      SplitPlainThenSeparator(parts[0], sep, Join(sep, parts[1..]));
      assert parts == [parts[0]] + parts[1..];
    }
  }

  /** A plain line, a separator, then more text: the line is the first
      piece and the rest splits on its own. */
  lemma SplitPlainThenSeparator(p: string, sep: string, rest: string)
    requires Plain(p) && IsSeparator(sep)
    ensures SplitLines(p + (sep + rest)) == [p] + SplitLines(rest)
  {
    SplitAtSeparator(sep, rest);
    var x := SplitLines(sep + rest);
    assert x[0] == "" && x[1..] == SplitLines(rest);
    SplitPlainPrefix(p, sep + rest);
    assert p + "" == p;
  }

  /** The lines of such a description are the non-blank ones among the
      joined lines, in their order. */
  lemma LinesOfJoined(sep: string, parts: seq<string>)
    requires IsSeparator(sep) && |parts| > 0
    requires forall i :: 0 <= i < |parts| ==> Plain(parts[i])
    ensures Lines(Join(sep, parts)) == NonBlank(parts)
  {
    SplitJoined(sep, parts);
  }

  // ---------------------------------------------------------------------
  // Fields
  // ---------------------------------------------------------------------

  /** `re.search(r'-\s*(.*?)\s*\[', line)`, group 1, or "" without a match.
      On a line without `\n` the search succeeds exactly when a `[` follows
      the first `-`; the group is the text between that `-` and the first
      following `[`, less the whitespace next to either delimiter (the
      greedy `\s*` take it; the lazy group stops at the first point where
      only whitespace is left before the `[`). */
  function CourseName(line: string): (r: string)
    requires '\n' !in line
    ensures '-' !in line ==> r == ""
    ensures '[' !in line ==> r == ""
    ensures '[' !in r
    ensures r != "" ==> !IsSpace(r[0]) && !IsSpace(r[|r| - 1])
  {
    match IndexOf(line, '-')
    case None => ""
    case Some(p) =>
      var after := line[p + 1..];
      match IndexOf(after, '[')
      case None => ""
      case Some(q) =>
        var between := after[..q];
        StripKeepsChars(between);
        Strip(between)
  }

  /** Whatever surrounds them, a line made of a dash-free prefix, a dash, a
      bracket-free middle and a bracket names the middle, trimmed. */
  lemma CourseNameIsTrimmedMiddle(pre: string, mid: string, post: string)
    requires '-' !in pre && '[' !in mid
    requires '\n' !in pre + "-" + mid + "[" + post
    ensures CourseName(pre + "-" + mid + "[" + post) == Strip(mid)
  {
    var line := pre + "-" + mid + "[" + post;
    IndexOfFirst(pre, '-', mid + "[" + post);
    assert line == pre + "-" + (mid + "[" + post);
    var after := line[|pre| + 1..];
    assert after == mid + "[" + post;
    IndexOfFirst(mid, '[', post);
    assert after[..|mid|] == mid;
  }

  /** A line whose first dash has no `[` anywhere after it names no course,
      whatever follows the dash. */
  lemma CourseNameWithoutBracket(pre: string, post: string)
    requires '-' !in pre && '[' !in post
    requires '\n' !in pre + "-" + post
    ensures CourseName(pre + "-" + post) == ""
  {
    var line := pre + "-" + post;
    IndexOfFirst(pre, '-', post);
    assert line[|pre| + 1..] == post;
  }

  predicate IsClosing(c: char)
  {
    c == '.' || c == '?' || c == '!'
  }

  /** The whitespace run at the start of `s` is immediately followed by `.`,
      `?` or `!`. */
  predicate RunBeforeClosing(s: string)
  {
    SpaceRun(s) < |s| && IsClosing(s[SpaceRun(s)])
  }

  /** `re.sub(r'\s+([.?!])', r'\1', s)`: every whitespace run that directly
      precedes `.`, `?` or `!` is removed. A run that does not is kept whole,
      since a match can neither start nor end inside it. */
  function DropSpaceBeforeClosing(s: string): (r: string)
    ensures |r| <= |s|
    ensures forall c :: c in r ==> c in s
    ensures |s| > 0 && !(IsSpace(s[0]) && RunBeforeClosing(s)) ==> |r| > 0 && r[0] == s[0]
    ensures forall i :: 0 <= i < |r| - 1 ==> !(IsSpace(r[i]) && IsClosing(r[i + 1]))
    decreases |s|
  {
    if |s| == 0 then ""
    else
      var rest := DropSpaceBeforeClosing(s[1..]);
      if IsSpace(s[0]) && RunBeforeClosing(s) then rest
      else
        assert IsSpace(s[0]) && |rest| > 0 ==> !IsClosing(rest[0]) by {
          if IsSpace(s[0]) && |s| > 1 {
            assert SpaceRun(s) == 1 + SpaceRun(s[1..]);
            if SpaceRun(s) < |s| {
              assert s[1..][SpaceRun(s[1..])] == s[SpaceRun(s)];
            }
          }
        }
        [s[0]] + rest
  }

  /** The characters of `s` that are not whitespace, in order. */
  function Visible(s: string): string
  {
    if |s| == 0 then "" else (if IsSpace(s[0]) then "" else [s[0]]) + Visible(s[1..])
  }

  /** Only whitespace is removed: the visible text is unchanged. */
  lemma {:induction false} DropKeepsVisible(s: string)
    ensures Visible(DropSpaceBeforeClosing(s)) == Visible(s)
    decreases |s|
  {
    if |s| > 0 {
      DropKeepsVisible(s[1..]);
      var rest := DropSpaceBeforeClosing(s[1..]);
      if !(IsSpace(s[0]) && RunBeforeClosing(s)) {
        assert ([s[0]] + rest)[1..] == rest;
      }
    }
  }

  /** Text with no whitespace directly before `.`, `?` or `!` is left as it
      is. */
  lemma {:induction false} DropKeepsClean(s: string)
    requires forall i :: 0 <= i < |s| - 1 ==> !(IsSpace(s[i]) && IsClosing(s[i + 1]))
    ensures DropSpaceBeforeClosing(s) == s
    decreases |s|
  {
    if |s| > 0 {
      var n := SpaceRun(s);
      if IsSpace(s[0]) && n < |s| {
        assert s[..n][n - 1] == s[n - 1];
        assert !IsClosing(s[n]);
      }
      DropKeepsClean(s[1..]);
      assert s == [s[0]] + s[1..];
    }
  }

  /** Removing the whitespace a second time changes nothing. */
  lemma DropIsIdempotent(s: string)
    ensures DropSpaceBeforeClosing(DropSpaceBeforeClosing(s)) == DropSpaceBeforeClosing(s)
  {
    DropKeepsClean(DropSpaceBeforeClosing(s));
  }

  /** When `a` holds a visible character, the leading whitespace of `a + b`
      is that of `a`. */
  lemma SpaceRunAppend(a: string, b: string)
    requires SpaceRun(a) < |a|
    ensures SpaceRun(a + b) == SpaceRun(a)
  {
    assert (a + b)[SpaceRun(a)] == a[SpaceRun(a)];
  }

  /** A whitespace run followed by a visible character `c`: the run is
      dropped when `c` is `.`, `?` or `!`, and kept whole otherwise. */
  lemma {:induction false} DropBlock(w: string, c: char)
    requires AllSpace(w) && !IsSpace(c)
    ensures DropSpaceBeforeClosing(w + [c]) == (if IsClosing(c) then [c] else w + [c])
    decreases |w|
  {
    var s := w + [c];
    if |w| == 0 {
      assert s == [c];
      assert DropSpaceBeforeClosing(s[1..]) == "";
    } else {
      assert s[|w|] == c;
      assert s[1..] == w[1..] + [c];
      DropBlock(w[1..], c);
      if !IsClosing(c) {
        assert [w[0]] + (w[1..] + [c]) == s;
      }
    }
  }

  /** Text ending in a visible character can be cleaned on its own: no
      match of the pattern straddles that character. */
  lemma {:induction false} DropAppend(a: string, b: string)
    requires |a| == 0 || !IsSpace(a[|a| - 1])
    ensures DropSpaceBeforeClosing(a + b) == DropSpaceBeforeClosing(a) + DropSpaceBeforeClosing(b)
    decreases |a|
  {
    if |a| > 0 {
      assert (a + b)[1..] == a[1..] + b;
      assert (a + b)[0] == a[0];
      if IsSpace(a[0]) {
        SpaceRunAppend(a, b);
        assert (a + b)[SpaceRun(a)] == a[SpaceRun(a)];
      }
      DropAppend(a[1..], b);
    } else {
      assert a + b == b;
    }
  }

  /** Trailing whitespace with nothing after it is kept. */
  lemma {:induction false} DropAllSpace(w: string)
    requires AllSpace(w)
    ensures DropSpaceBeforeClosing(w) == w
    decreases |w|
  {
    if |w| > 0 {
      DropAllSpace(w[1..]);
    }
  }

  /** The rewrite block by block: a whitespace run and the visible character
      after it come out as `DropBlock` says, and the rest of the text is
      cleaned on its own. With `DropAllSpace` for a trailing run, this fixes
      the result on every input: whitespace that is not directly before
      `.`, `?` or `!` is always kept. */
  lemma DropBlockThen(w: string, c: char, t: string)
    requires AllSpace(w) && !IsSpace(c)
    ensures DropSpaceBeforeClosing(w + [c] + t)
      == (if IsClosing(c) then [c] else w + [c]) + DropSpaceBeforeClosing(t)
  {
    DropAppend(w + [c], t);
    DropBlock(w, c);
  }

  /** `lines[1].split("-")[0]`: the text before the first `-`. */
  function BeforeDash(s: string): (r: string)
    ensures '-' !in r && StartsWith(s, r)
    ensures r == s <==> '-' !in s
    ensures r != s ==> s[|r|] == '-'
  {
    match IndexOf(s, '-')
    case None => s
    case Some(p) => s[..p]
  }

  /** The `salle` column: the text before the first dash, without the
      whitespace in front of `.`, `?` or `!`. It never holds a dash, and its
      visible characters are exactly those before the first dash. */
  function Salle(line: string): (r: string)
    ensures '-' !in r
    ensures forall c :: c in r ==> c in line
    ensures Visible(r) == Visible(BeforeDash(line))
    ensures (forall i :: 0 <= i < |line| ==> !IsClosing(line[i])) ==> r == BeforeDash(line)
  {
    var before := BeforeDash(line);
    DropKeepsVisible(before);
    assert forall c :: c in before ==> c in line by {
      assert before == line[..|before|];
    }
    assert (forall i :: 0 <= i < |line| ==> !IsClosing(line[i])) ==> DropSpaceBeforeClosing(before) == before by {
      if forall i :: 0 <= i < |line| ==> !IsClosing(line[i]) {
        assert forall i :: 0 <= i < |before| ==> before[i] == line[i];
        DropKeepsClean(before);
      }
    }
    DropSpaceBeforeClosing(before)
  }

  const IsadsPhrase: string := "Ingénierie Statistique, Actuariat et Data Science ISADS"
  const MathPhrase: string := "Mathématiques et Apprentissage Statistique"
  const LabelPrefix: string := "M2 Saclay "
  const IsadsLabel: string := LabelPrefix + IsadsPhrase
  const MathLabel: string := LabelPrefix + MathPhrase + " Math&AS"

  /** The labels one line contributes, after unescaping it once more. */
  function LineLabels(text: string): seq<string>
  {
    (if Contains(text, IsadsPhrase) then [IsadsLabel] else [])
    + (if Contains(text, MathPhrase) then [MathLabel] else [])
  }

  predicate MentionsProgramme(text: string)
  {
    Contains(text, IsadsPhrase) || Contains(text, MathPhrase)
  }

  /** The `formations` list built line by line. */
  function Formations(lines: seq<string>, unescape: string -> string): (r: seq<string>)
    ensures forall i :: 0 <= i < |r| ==> r[i] == IsadsLabel || r[i] == MathLabel
    ensures |r| == 0 <==> forall i :: 0 <= i < |lines| ==> !MentionsProgramme(unescape(lines[i]))
  {
    if |lines| == 0 then []
    else
      var rest := Formations(lines[1..], unescape);
      assert forall i :: 1 <= i < |lines| ==> lines[i] == lines[1..][i - 1];
      LineLabels(unescape(lines[0])) + rest
  }

  /** The labels are gathered line by line, in line order: the lines of a
      concatenation give the labels of the first part, then those of the
      second; one line gives the ISADS label if it names that programme,
      then the Math&AS label if it names that one. */
  lemma {:induction false} FormationsAppend(a: seq<string>, b: seq<string>, unescape: string -> string)
    ensures Formations(a + b, unescape) == Formations(a, unescape) + Formations(b, unescape)
    ensures |a| == 1 ==>
      Formations(a, unescape)
      == (if Contains(unescape(a[0]), IsadsPhrase) then [IsadsLabel] else [])
       + (if Contains(unescape(a[0]), MathPhrase) then [MathLabel] else [])
    decreases |a|
  {
    if |a| > 0 {
      assert (a + b)[1..] == a[1..] + b;
      assert (a + b)[0] == a[0];
      FormationsAppend(a[1..], b, unescape);
      if |a| == 1 {
        assert a[1..] == [];
        assert Formations([], unescape) == [];
      }
    } else {
      assert a + b == b;
    }
  }

  /** The `formation` column is empty exactly when no line names either
      programme. */
  lemma FormationEmptyIff(lines: seq<string>, unescape: string -> string)
    ensures Join("; ", Formations(lines, unescape)) == "" <==>
      forall i :: 0 <= i < |lines| ==> !MentionsProgramme(unescape(lines[i]))
  {
    var fs := Formations(lines, unescape);
    JoinEmpty("; ", fs);
    assert fs == [] || fs[0] != "" by {
      if fs != [] {
        assert fs[0] == IsadsLabel || fs[0] == MathLabel;
        assert |IsadsLabel| >= |LabelPrefix| && |MathLabel| >= |LabelPrefix|;
      }
    }
    assert Join("; ", fs) == "" <==> fs == [];
  }

  // ---------------------------------------------------------------------
  // One event, all events
  // ---------------------------------------------------------------------

  /** `clean_event(i, event)`, or `None` where it raises `IndexError`
      because the description has fewer than three non-blank lines. */
  function CleanEvent(i: nat, e: Event, unescape: string -> string): (r: Option<CleanRow>)
    ensures r.None? <==> |Lines(unescape(e.description))| < 3
  {
    var lines := Lines(unescape(e.description));
    if |lines| < 3 then None
    else
      Some(CleanRow(
        id := NatToString(i),
        kind := e.eventCategory.GetOr(""),
        debut := e.start,
        fin := e.end,
        cours := CourseName(lines[2]),
        salle := Salle(lines[1]),
        batiment := Join("", e.sites.OrElse([])),
        formation := Join("; ", Formations(lines, unescape)),
        moduleName := Join(", ", e.modules.OrElse([]))))
  }

  /** An event is cleaned exactly when its description has three non-blank
      lines. The row keeps the event's times and category and numbers the
      row by its position; the course name comes from the third line, the
      room from the second, the programmes from every line; the sites are
      concatenated with no separator and the modules joined with ", ", both
      empty when the event has no such list. */
  lemma CleanEventShape(i: nat, e: Event, unescape: string -> string)
    ensures var r := CleanEvent(i, e, unescape);
      var lines := Lines(unescape(e.description));
      && (r.None? <==> |lines| < 3)
      && (r.Some? ==>
        && r.value.id == NatToString(i)
        && r.value.debut == e.start && r.value.fin == e.end
        && r.value.kind == e.eventCategory.GetOr("")
        && r.value.cours == CourseName(lines[2])
        && r.value.salle == Salle(lines[1])
        && r.value.formation == Join("; ", Formations(lines, unescape))
        && (e.sites.Present? ==> r.value.batiment == Join("", e.sites.value))
        && (e.modules.Present? ==> r.value.moduleName == Join(", ", e.modules.value))
        && (e.sites.Absent? || e.sites.Null? ==> r.value.batiment == "")
        && (e.modules.Absent? || e.modules.Null? ==> r.value.moduleName == ""))
  {
  }

  /** `[f(i, x) for i, x in enumerate(xs)]` where `f` may raise (`None`):
      the whole comprehension raises as soon as one call does. */
  method EnumerateAll<A, B>(xs: seq<A>, f: (nat, A) -> Option<B>) returns (r: Option<seq<B>>)
    ensures r.Some? <==> forall i :: 0 <= i < |xs| ==> f(i, xs[i]).Some?
    ensures r.Some? ==>
      && |r.value| == |xs|
      && forall i :: 0 <= i < |xs| ==> Some(r.value[i]) == f(i, xs[i])
  {
    var acc: seq<B> := [];
    var i := 0;
    while i < |xs|
      invariant 0 <= i <= |xs|
      invariant |acc| == i
      invariant forall j :: 0 <= j < i ==> Some(acc[j]) == f(j, xs[j])
    {
      var y := f(i, xs[i]);
      if y.None? {
        return None;
      }
      acc := acc + [y.value];
      i := i + 1;
    }
    return Some(acc);
  }

  /** `[clean_event(i, e) for i, e in enumerate(edt)]`; `None` when any
      event raises. */
  method CleanEvents(events: seq<Event>, unescape: string -> string) returns (rows: Option<seq<CleanRow>>)
    ensures rows.Some? <==> forall i :: 0 <= i < |events| ==> CleanEvent(i, events[i], unescape).Some?
    ensures rows.Some? ==>
      && |rows.value| == |events|
      && forall i :: 0 <= i < |events| ==> Some(rows.value[i]) == CleanEvent(i, events[i], unescape)
  {
    rows := EnumerateAll(events, (i: nat, e: Event) => CleanEvent(i, e, unescape));
  }

  /** Sorting key: the start instant of a row. */
  function ByStart(instant: string -> int): CleanRow -> int
  {
    (r: CleanRow) => instant(r.debut)
  }

  /** `cleaned_events` after the sort by start time. */
  method CleanedEvents(events: seq<Event>, unescape: string -> string, instant: string -> int)
    returns (rows: Option<seq<CleanRow>>)
    ensures rows.Some? <==> forall i :: 0 <= i < |events| ==> CleanEvent(i, events[i], unescape).Some?
    ensures rows.Some? ==>
      && Sorting.SortedBy(rows.value, ByStart(instant))
      && |rows.value| == |events|
      && exists unsorted: seq<CleanRow> ::
           && |unsorted| == |events|
           && (forall i :: 0 <= i < |events| ==> Some(unsorted[i]) == CleanEvent(i, events[i], unescape))
           && rows.value == Sorting.SortBy(unsorted, ByStart(instant))
           && multiset(rows.value) == multiset(unsorted)
  {
    var cleaned := CleanEvents(events, unescape);
    if cleaned.None? {
      return None;
    }
    var sorted := Sorting.SortBy(cleaned.value, ByStart(instant));
    Sorting.SortBySorted(cleaned.value, ByStart(instant));
    return Some(sorted);
  }

  /** Rows cleaned from different positions carry different ids. */
  lemma IdsDistinct(events: seq<Event>, unescape: string -> string, i: nat, j: nat)
    requires i < |events| && j < |events| && i != j
    ensures CleanEvent(i, events[i], unescape).Some? && CleanEvent(j, events[j], unescape).Some? ==>
      CleanEvent(i, events[i], unescape).value.id != CleanEvent(j, events[j], unescape).value.id
  {
    if NatToString(i) == NatToString(j) {
      NatToStringInjective(i, j);
    }
  }

  /** Rows with equal start times keep their cleaning order after the sort. */
  lemma SortKeepsOrderOfEqualStarts(rows: seq<CleanRow>, instant: string -> int, t: int)
    ensures Sorting.WithKey(Sorting.SortBy(rows, ByStart(instant)), ByStart(instant), t)
         == Sorting.WithKey(rows, ByStart(instant), t)
  {
    Sorting.SortByIsStable(rows, ByStart(instant), t);
  }
}
