/** The string handling of the editor panel (app/assets/javascripts/controllers/editor.js):
    the plain-text preview written on save, the parsing of the "#tag"
    string typed into the tags field, and the four-space fallback for the
    tab key. JavaScript's string primitives are modelled as they are
    specified: `substring` clamps and orders its bounds, `split` with a
    one-character separator keeps empty pieces, and `trim` strips
    ECMAScript white space and line terminators. */
module EditorText {
  import opened Seqs

  /* ---------------- JavaScript string primitives ---------------- */

  function Clamp(i: int, hi: nat): (r: nat)
    ensures r <= hi
    ensures 0 <= i <= hi ==> r == i
  {
    if i < 0 then 0 else if i > hi then hi else i
  }

  /** `s.substring(a, b)`: both bounds are clamped to [0, |s|] and swapped
      when the first is the larger. */
  function Substring(s: string, a: int, b: int): (r: string)
    ensures 0 <= a <= b <= |s| ==> r == s[a..b]
    // an end past the string is clamped to its length
    ensures 0 <= a <= |s| <= b ==> r == s[a..]
    // bounds given in the wrong order are swapped
    ensures 0 <= b <= a <= |s| ==> r == s[b..a]
    ensures |r| <= |s|
  {
    var lo, hi := Clamp(a, |s|), Clamp(b, |s|);
    if lo <= hi then s[lo..hi] else s[hi..lo]
  }

  /** `s.substring(a)`: from the clamped index to the end. */
  function SubstringFrom(s: string, a: int): (r: string)
    ensures 0 <= a <= |s| ==> r == s[a..]
  {
    Substring(s, a, |s|)
  }

  /** `pieces.join(sep)` for a one-character separator. */
  function Join(pieces: seq<string>, sep: char): string
  {
    if pieces == [] then ""
    else if |pieces| == 1 then pieces[0]
    else pieces[0] + [sep] + Join(pieces[1..], sep)
  }

  /** `s.split(sep)` for a one-character separator: the pieces between
      separators, empty pieces included; the empty string gives [""]. */
  function Split(s: string, sep: char): (r: seq<string>)
    ensures |r| >= 1
    ensures forall p <- r :: sep !in p
  {
    if s == [] then [""]
    else
      var rest := Split(s[1..], sep);
      if s[0] == sep then [""] + rest
      else [[s[0]] + rest[0]] + rest[1..]
  }

  /** Joining the pieces of a split with the same separator gives the
      string back. */
  lemma {:induction false} JoinSplit(s: string, sep: char)
    ensures Join(Split(s, sep), sep) == s
  {
    if s != [] {
      var rest := Split(s[1..], sep);
      JoinSplit(s[1..], sep);
      if s[0] == sep {
        assert ([""] + rest)[1..] == rest;
        assert s == [sep] + s[1..];
      } else {
        var r := [[s[0]] + rest[0]] + rest[1..];
        assert r[1..] == rest[1..];
        if |rest| == 1 {
          assert s == [s[0]] + s[1..];
        } else {
          assert Join(rest, sep) == rest[0] + [sep] + Join(rest[1..], sep);
          assert s == [s[0]] + s[1..];
        }
      }
    }
  }

  lemma {:induction false} SplitNoSeparator(p: string, sep: char)
    requires sep !in p
    ensures Split(p, sep) == [p]
  {
    if p != [] {
      SplitNoSeparator(p[1..], sep);
      assert p == [p[0]] + p[1..];
    }
  }

  /** A piece free of the separator, followed by the separator, splits off
      as one piece. */
  lemma {:induction false} SplitAfterPiece(p: string, sep: char, t: string)
    requires sep !in p
    ensures Split(p + [sep] + t, sep) == [p] + Split(t, sep)
  {
    if p == [] {
      assert p + [sep] + t == [sep] + t;
      assert ([sep] + t)[1..] == t;
    } else {
      var s := p + [sep] + t;
      assert s[0] == p[0] && s[1..] == p[1..] + [sep] + t;
      SplitAfterPiece(p[1..], sep, t);
      assert p == [p[0]] + p[1..];
    }
  }

  /** Splitting the join of separator-free pieces gives the pieces back. */
  lemma {:induction false} SplitJoin(pieces: seq<string>, sep: char)
    requires |pieces| >= 1
    requires forall p <- pieces :: sep !in p
    ensures Split(Join(pieces, sep), sep) == pieces
  {
    if |pieces| == 1 {
      SplitNoSeparator(pieces[0], sep);
    } else {
      SplitJoin(pieces[1..], sep);
      SplitAfterPiece(pieces[0], sep, Join(pieces[1..], sep));
      assert pieces == [pieces[0]] + pieces[1..];
    }
  }

  /** ECMAScript WhiteSpace and LineTerminator code points, which `trim`
      removes. */
  predicate IsJsWhitespace(c: char)
  {
    || c == '\t' || c == '\U{0B}' || c == '\U{0C}' || c == ' ' || c == '\U{A0}' || c == '\U{FEFF}'
    || c == '\U{1680}' || ('\U{2000}' <= c <= '\U{200A}') || c == '\U{202F}' || c == '\U{205F}' || c == '\U{3000}'
    || c == '\n' || c == '\r' || c == '\U{2028}' || c == '\U{2029}'
  }

  predicate AllWhitespace(s: string)
  {
    forall i :: 0 <= i < |s| ==> IsJsWhitespace(s[i])
  }

  predicate IsTrimmed(s: string)
  {
    s == [] || (!IsJsWhitespace(s[0]) && !IsJsWhitespace(s[|s| - 1]))
  }

  /** The number of white-space characters at the start of s. */
  function LeadingWhitespace(s: string): (n: nat)
    ensures n <= |s|
    ensures forall i :: 0 <= i < n ==> IsJsWhitespace(s[i])
    ensures n < |s| ==> !IsJsWhitespace(s[n])
  {
    if s != [] && IsJsWhitespace(s[0]) then 1 + LeadingWhitespace(s[1..]) else 0
  }

  /** The number of white-space characters at the end of s. */
  function TrailingWhitespace(s: string): (n: nat)
    ensures n <= |s|
    ensures forall i :: |s| - n <= i < |s| ==> IsJsWhitespace(s[i])
    ensures n < |s| ==> !IsJsWhitespace(s[|s| - n - 1])
  {
    if s != [] && IsJsWhitespace(s[|s| - 1]) then 1 + TrailingWhitespace(s[..|s| - 1]) else 0
  }

  /** `s.trim()`: s without its leading and trailing white space. The
      result starts where the leading white space ends, and everything
      after it is white space too. */
  function Trim(s: string): (r: string)
    ensures IsTrimmed(r)
    ensures var a := LeadingWhitespace(s);
      a + |r| <= |s| && r == s[a..a + |r|]
      && forall i :: a + |r| <= i < |s| ==> IsJsWhitespace(s[i])
  {
    var a := LeadingWhitespace(s);
    var rest := s[a..];
    var b := TrailingWhitespace(rest);
    var r := rest[..|rest| - b];
    assert forall i :: a + |r| <= i < |s| ==> s[i] == rest[i - a];
    r
  }

  lemma TrimTrimmed(s: string)
    requires IsTrimmed(s)
    ensures Trim(s) == s
  {
    assert LeadingWhitespace(s) == 0;
    assert TrailingWhitespace(s) == 0;
  }

  lemma TrimIdempotent(s: string)
    ensures Trim(Trim(s)) == Trim(s)
  {
    TrimTrimmed(Trim(s));
  }

  /** Trimming a white-space-only string leaves nothing. */
  lemma TrimAllWhitespace(s: string)
    requires AllWhitespace(s)
    ensures Trim(s) == ""
  {
    assert LeadingWhitespace(s) == |s|;
  }

  /* ---------------- Preview (editor.js:322-329) ---------------- */

  const NotePreviewCharLimit: nat := 80
  const Ellipsis: string := "..."

  /** `note.text || ""`: a missing text counts as the empty one. */
  function NoteText(text: Option<string>): (r: string)
    ensures text.Some? ==> r == text.value
    ensures r == "" <==> text.None? || text.value == ""
  {
    match text
    case Some(t) => t
    case None => ""
  }

  /** The plain preview saved with a note: its first 80 characters, with
      "..." added exactly when the text was longer. */
  function PreviewPlain(text: string): (r: string)
    ensures |text| <= NotePreviewCharLimit ==> r == text
    ensures |text| > NotePreviewCharLimit ==>
      |r| == NotePreviewCharLimit + |Ellipsis| && r[..NotePreviewCharLimit] == text[..NotePreviewCharLimit]
      && r[NotePreviewCharLimit..] == Ellipsis
  {
    var truncate := |text| > NotePreviewCharLimit;
    Substring(text, 0, NotePreviewCharLimit) + (if truncate then Ellipsis else "")
  }

  /* ---------------- Tag string (editor.js:620-624) ---------------- */

  /** `pieces.filter(p => p.length > 0)` */
  function NonEmptyPieces(pieces: seq<string>): (r: seq<string>)
    ensures forall p <- r :: p != "" && p in pieces
    ensures forall p <- pieces :: p != "" ==> p in r
  {
    if pieces == [] then []
    else (if pieces[0] == "" then [] else [pieces[0]]) + NonEmptyPieces(pieces[1..])
  }

  /** The filter is `_.pull(pieces, "")`: it keeps the other pieces in
      order and with their multiplicity. */
  lemma {:induction false} NonEmptyPiecesIsRemoveAll(pieces: seq<string>)
    ensures NonEmptyPieces(pieces) == RemoveAll(pieces, "")
    ensures IsSubsequence(NonEmptyPieces(pieces), pieces)
    ensures multiset(NonEmptyPieces(pieces)) == multiset(pieces)["" := 0]
  {
    if pieces != [] {
      NonEmptyPiecesIsRemoveAll(pieces[1..]);
    }
  }

  /** `pieces.map(p => p.trim())` */
  function TrimAll(pieces: seq<string>): (r: seq<string>)
    ensures |r| == |pieces|
    ensures forall i :: 0 <= i < |r| ==> r[i] == Trim(pieces[i])
  {
    if pieces == [] then [] else [Trim(pieces[0])] + TrimAll(pieces[1..])
  }

  /** The titles typed into the tags field: split on '#', drop the empty
      pieces, then trim each one. Filtering comes before trimming, so a
      piece made only of white space survives as "". */
  function ParseTagsString(s: string): (r: seq<string>)
    ensures forall t <- r :: '#' !in t && IsTrimmed(t)
  {
    var r := TrimAll(NonEmptyPieces(Split(s, '#')));
    forall t <- r ensures '#' !in t {
      var i :| 0 <= i < |r| && r[i] == t;
      TrimHasNoNewChar(NonEmptyPieces(Split(s, '#'))[i], '#');
    }
    r
  }

  /** The titles are exactly the trims of the non-empty pieces between
      '#'s. */
  lemma ParseTagsStringPieces(s: string)
    ensures forall t <- ParseTagsString(s) :: exists p <- Split(s, '#') :: p != "" && t == Trim(p)
    ensures forall p <- Split(s, '#') :: p != "" ==> Trim(p) in ParseTagsString(s)
  {
    var pieces := Split(s, '#');
    var kept := NonEmptyPieces(pieces);
    var r := TrimAll(kept);
    forall t <- r ensures exists p <- pieces :: p != "" && t == Trim(p) {
      var i :| 0 <= i < |r| && r[i] == t;
      assert kept[i] in pieces;
    }
    forall p <- pieces | p != "" ensures Trim(p) in r {
      var i :| 0 <= i < |kept| && kept[i] == p;
      assert r[i] == Trim(p);
    }
  }

  lemma TrimHasNoNewChar(s: string, c: char)
    requires c !in s
    ensures c !in Trim(s)
  {
    var r, a := Trim(s), LeadingWhitespace(s);
    forall k | 0 <= k < |r| ensures r[k] != c {
      assert r[k] == s[a + k];
    }
  }

  /** A piece made only of white space (the "# " in "#a# #b") shows up as
      an empty title. */
  lemma WhitespacePieceGivesEmptyTitle(s: string, p: string)
    requires p in Split(s, '#') && p != "" && AllWhitespace(p)
    ensures "" in ParseTagsString(s)
  {
    TrimAllWhitespace(p);
  }

  /** A list of titles written as hashtags separated by spaces: "#a #b". */
  function Hashtags(titles: seq<string>): string
  {
    if titles == [] then ""
    else if |titles| == 1 then "#" + titles[0]
    else "#" + titles[0] + " " + Hashtags(titles[1..])
  }

  /** Hashtags written as "#a #b #c" parse back to the titles, as long as
      each title is non-empty, trimmed and free of '#'. */
  lemma {:induction false} ParseHashtags(titles: seq<string>)
    requires forall t <- titles :: t != "" && IsTrimmed(t) && '#' !in t
    ensures ParseTagsString(Hashtags(titles)) == titles
  {
    if titles == [] {
      assert Split("", '#') == [""];
    } else if |titles| == 1 {
      assert titles[0] in titles;
      ParseOneHashtag(titles[0]);
    } else {
      var t, rest := titles[0], titles[1..];
      assert titles == [t] + rest;
      assert t in titles;
      assert forall x <- rest :: x in titles;
      calc {
        ParseTagsString(Hashtags(titles));
      ==  { HashtagsCons(t, rest); }
        [t] + ParseTagsString(Hashtags(rest));
      ==  { ParseHashtags(rest); }
        [t] + rest;
      }
    }
  }

  lemma HashtagsCons(t: string, rest: seq<string>)
    requires t != "" && IsTrimmed(t) && '#' !in t
    requires rest != []
    ensures ParseTagsString(Hashtags([t] + rest)) == [t] + ParseTagsString(Hashtags(rest))
  {
    var h := Hashtags(rest);
    assert h == "#" + h[1..];
    assert ([t] + rest)[1..] == rest;
    assert Hashtags([t] + rest) == "#" + t + " " + "#" + h[1..];
    ParseHashtagStep(t, h[1..]);
  }

  lemma ParseOneHashtag(t: string)
    requires t != "" && IsTrimmed(t) && '#' !in t
    ensures ParseTagsString("#" + t) == [t]
  {
    assert Split("#" + t, '#') == [""] + [t] by {
      SplitAfterPiece("", '#', t);
      SplitNoSeparator(t, '#');
      assert "#" + t == "" + ['#'] + t;
    }
    assert NonEmptyPieces([""] + [t]) == [t] by {
      NonEmptyCons("", [t]);
      NonEmptyCons(t, []);
    }
    assert TrimAll([t]) == [t] by {
      TrimAllCons(t, []);
      TrimTrimmed(t);
    }
  }

  lemma NonEmptyCons(p: string, ps: seq<string>)
    ensures NonEmptyPieces([p] + ps) == (if p == "" then [] else [p]) + NonEmptyPieces(ps)
  {
    assert ([p] + ps)[1..] == ps;
  }

  lemma TrimAllCons(p: string, ps: seq<string>)
    ensures TrimAll([p] + ps) == [Trim(p)] + TrimAll(ps)
  {
    assert ([p] + ps)[1..] == ps;
  }

  /** One hashtag followed by a space in front of more hashtags parses to
      its title in front of theirs. */
  lemma ParseHashtagStep(t: string, tail: string)
    requires t != "" && IsTrimmed(t) && '#' !in t
    ensures ParseTagsString("#" + t + " " + "#" + tail) == [t] + ParseTagsString("#" + tail)
  {
    var padded := t + " ";
    var whole := "#" + t + " " + "#" + tail;
    var rest := Split(tail, '#');
    assert Split(whole, '#') == [""] + ([padded] + rest) by {
      SplitAfterPiece(padded, '#', tail);
      SplitAfterPiece("", '#', padded + ['#'] + tail);
      assert whole == "" + ['#'] + (padded + ['#'] + tail);
    }
    assert Split("#" + tail, '#') == [""] + rest by {
      SplitAfterPiece("", '#', tail);
      assert "#" + tail == "" + ['#'] + tail;
    }
    assert NonEmptyPieces([""] + ([padded] + rest)) == [padded] + NonEmptyPieces(rest) by {
      NonEmptyCons("", [padded] + rest);
      NonEmptyCons(padded, rest);
    }
    assert NonEmptyPieces([""] + rest) == NonEmptyPieces(rest) by {
      NonEmptyCons("", rest);
    }
    assert TrimAll([padded] + NonEmptyPieces(rest)) == [t] + TrimAll(NonEmptyPieces(rest)) by {
      TrimAllCons(padded, NonEmptyPieces(rest));
      TrimPadded(t);
    }
  }

  lemma TrimPadded(t: string)
    requires t != "" && IsTrimmed(t)
    ensures Trim(t + " ") == t
  {
    var s := t + " ";
    assert s[0] == t[0] && s[|s| - 2] == t[|t| - 1] && s[|s| - 1] == ' ';
    assert LeadingWhitespace(s) == 0;
    assert TrailingWhitespace(s) == 1;
  }

  /* ---------------- Tab key fallback (editor.js:954-964) ---------------- */

  datatype Edit = Edit(value: string, caret: int)

  const TabSpaces: string := "    "

  /** The editor's value with the selection [start, end) replaced by four
      spaces, and the caret placed just after them. */
  function TabSplice(value: string, start: int, end: int): (r: Edit)
    ensures r.caret == start + |TabSpaces|
    ensures 0 <= start <= end <= |value| ==>
      |r.value| == |value| - (end - start) + |TabSpaces|
      && r.value[..start] == value[..start]
      && r.value[start..r.caret] == TabSpaces
      && r.value[r.caret..] == value[end..]
  {
    Edit(Substring(value, 0, start) + TabSpaces + SubstringFrom(value, end), start + 4)
  }

  /** Taking the four spaces out again leaves the value with its
      selection deleted. */
  lemma TabSpliceUndo(value: string, start: int, end: int)
    requires 0 <= start <= end <= |value|
    ensures var e := TabSplice(value, start, end);
      e.value[..e.caret - |TabSpaces|] + e.value[e.caret..] == value[..start] + value[end..]
  {
    var e := TabSplice(value, start, end);
    assert e.value[..e.caret - |TabSpaces|] == e.value[..start];
  }
}
