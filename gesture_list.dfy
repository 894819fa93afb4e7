/** The gesture manager (add_new_gesture.py): reading the `GESTURES = [...]`
    literal out of a script, writing a list back into it, the NUM_CLASSES
    rewrite, the `{str(i): name}` label map and the rule for adding a name. */
module GestureList {
  import opened Decimal

  /** The assignment both scripts hold the list in. */
  const ASSIGN: string := "GESTURES = "
  /** The text the search pattern `GESTURES = \[` matches literally. */
  const OPEN: string := ASSIGN + "["
  /** The text the pattern `NUM_CLASSES = ` matches before its digits. */
  const NUM_KEY: string := "NUM_CLASSES = "

  /** The characters Python's `str.strip()` removes (those `str.isspace()`
      accepts). */
  const WHITESPACE: set<char> := {
    ' ', '\t', '\n', '\r', '\U{B}', '\U{C}', '\U{1C}', '\U{1D}', '\U{1E}', '\U{1F}',
    '\U{85}', '\U{A0}', '\U{1680}', '\U{2000}', '\U{2001}', '\U{2002}', '\U{2003}',
    '\U{2004}', '\U{2005}', '\U{2006}', '\U{2007}', '\U{2008}', '\U{2009}', '\U{200A}',
    '\U{2028}', '\U{2029}', '\U{202F}', '\U{205F}', '\U{3000}'
  }

  predicate AllIn(s: string, cs: set<char>) {
    forall i :: 0 <= i < |s| ==> s[i] in cs
  }

  /** What the reading of a written list relies on about the whitespace set:
      the space the writer puts after each comma is whitespace, the quote
      and the comma are not. */
  predicate WriterSpacing(ws: set<char>) {
    ' ' in ws && '\'' !in ws && ',' !in ws
  }

  lemma WhitespaceSpacing()
    ensures WriterSpacing(WHITESPACE)
  {
  }

  /** The characters `strip("'\"")` removes. */
  const QUOTES: set<char> := {'\'', '"'}

  // ---------------------------------------------------------------------
  // Searching
  // ---------------------------------------------------------------------

  predicate StartsAt(s: string, pat: string, i: nat) {
    i + |pat| <= |s| && s[i..i + |pat|] == pat
  }

  /** The first position at or after `from` where `pat` occurs, or -1. */
  function Find(s: string, pat: string, from: nat): (k: int)
    requires |pat| > 0
    ensures k == -1 || (from <= k && StartsAt(s, pat, k))
    ensures forall i :: from <= i && (k == -1 || i < k) ==> !StartsAt(s, pat, i)
    decreases |s| - from
  {
    if from + |pat| > |s| then -1
    else if StartsAt(s, pat, from) then from
    else Find(s, pat, from + 1)
  }

  /** A match of `GESTURES = \[(.*?)\]` under DOTALL occupying p..q: the
      literal at p and the first `]` after it at q. */
  ghost predicate LiteralMatch(content: string, p: nat, q: nat) {
    StartsAt(content, OPEN, p) && p + |OPEN| <= q < |content| && content[q] == ']' &&
    forall i :: p + |OPEN| <= i < q ==> content[i] != ']'
  }

  /** What `re.search` finds: the leftmost match, given by the position of
      the literal and that of the closing bracket. */
  function MatchGestures(content: string): (m: Option)
    ensures m.None? ==> forall p: nat, q: nat :: !LiteralMatch(content, p, q)
    ensures m.Some? ==> LiteralMatch(content, m.p, m.q)
    ensures m.Some? ==> forall p': nat, q': nat :: p' < m.p ==> !LiteralMatch(content, p', q')
    ensures m.Some? ==> forall i :: 0 <= i < m.p ==> !StartsAt(content, OPEN, i)
  {
    var p := Find(content, OPEN, 0);
    if p < 0 then None
    else
      var q := Find(content, "]", p + |OPEN|);
      if q < 0 then
        assert forall p': nat, q': nat :: !LiteralMatch(content, p', q') by {
          forall p': nat, q': nat | StartsAt(content, OPEN, p') && p' + |OPEN| <= q' < |content|
            ensures content[q'] != ']'
          {
            assert p <= p';
            assert !StartsAt(content, "]", q');
            assert content[q'..q' + 1] == [content[q']];
          }
        }
        None
      else
        assert content[q] == ']' by { assert content[q..q + 1] == "]"; }
        assert forall i :: p + |OPEN| <= i < q ==> content[i] != ']' by {
          forall i | p + |OPEN| <= i < q ensures content[i] != ']' {
            assert !StartsAt(content, "]", i);
            assert content[i..i + 1] == [content[i]];
          }
        }
        Some(p, q)
  }

  datatype Option = None | Some(p: nat, q: nat)

  /** The leftmost match is the only one with no match to its left. */
  lemma MatchGesturesUnique(content: string, p: nat, q: nat)
    requires LiteralMatch(content, p, q)
    requires forall p': nat, q': nat :: p' < p ==> !LiteralMatch(content, p', q')
    ensures MatchGestures(content) == Some(p, q)
  {
  }

  // ---------------------------------------------------------------------
  // Splitting and stripping
  // ---------------------------------------------------------------------

  function JoinWith(pieces: seq<string>, sep: char): string
    requires |pieces| > 0
  {
    if |pieces| == 1 then pieces[0] else pieces[0] + [sep] + JoinWith(pieces[1..], sep)
  }

  /** `s.split(sep)`: the pieces between separators, at least one. */
  function Split(s: string, sep: char): (r: seq<string>)
    ensures |r| > 0 && JoinWith(r, sep) == s
    ensures forall i :: 0 <= i < |r| ==> sep !in r[i]
    decreases |s|
  {
    var k := Find(s, [sep], 0);
    if k < 0 then
      assert forall i :: 0 <= i < |s| ==> s[i] != sep by {
        forall i | 0 <= i < |s| ensures s[i] != sep {
          assert !StartsAt(s, [sep], i);
          assert s[i..i + 1] == [s[i]];
        }
      }
      [s]
    else
      assert s[k..k + 1] == [sep];
      assert forall i :: 0 <= i < k ==> s[i] != sep by {
        forall i | 0 <= i < k ensures s[i] != sep {
          assert !StartsAt(s, [sep], i);
          assert s[i..i + 1] == [s[i]];
        }
      }
      var rest := Split(s[k + 1..], sep);
      assert s == s[..k] + [sep] + s[k + 1..];
      [s[..k]] + rest
  }

  lemma SplitNoSep(s: string, sep: char)
    requires sep !in s
    ensures Split(s, sep) == [s]
  {
  }

  lemma SplitAtSep(a: string, b: string, sep: char)
    requires sep !in a
    ensures Split(a + [sep] + b, sep) == [a] + Split(b, sep)
  {
    var s := a + [sep] + b;
    var k := Find(s, [sep], 0);
    assert StartsAt(s, [sep], |a|) by { assert s[|a|..|a| + 1] == [sep]; }
    forall i | 0 <= i < |a| ensures !StartsAt(s, [sep], i) {
      assert s[i..i + 1] == [a[i]];
    }
    assert k == |a|;
    assert s[..k] == a && s[k + 1..] == b;
  }

  /** Drops leading characters of `cs`. */
  function TrimStart(s: string, cs: set<char>): (r: string)
    ensures |r| <= |s| && r == s[|s| - |r|..]
    ensures forall i :: 0 <= i < |s| - |r| ==> s[i] in cs
    ensures r == [] || r[0] !in cs
  {
    if s != [] && s[0] in cs then TrimStart(s[1..], cs) else s
  }

  /** Drops trailing characters of `cs`. */
  function TrimEnd(s: string, cs: set<char>): (r: string)
    ensures |r| <= |s| && r == s[..|r|]
    ensures forall i :: |r| <= i < |s| ==> s[i] in cs
    ensures r == [] || r[|r| - 1] !in cs
  {
    if s != [] && s[|s| - 1] in cs then TrimEnd(s[..|s| - 1], cs) else s
  }

  /** `s.strip(cs)`: the middle part of s left once the characters of `cs`
      are taken off both ends. */
  function Strip(s: string, cs: set<char>): (r: string)
    ensures |r| <= |s|
    ensures r == [] || (r[0] !in cs && r[|r| - 1] !in cs)
    ensures (forall i :: 0 <= i < |s| ==> s[i] in cs) <==> r == []
  {
    TrimEnd(TrimStart(s, cs), cs)
  }

  lemma {:induction false} TrimStartPrefix(lead: string, s: string, cs: set<char>)
    requires forall i :: 0 <= i < |lead| ==> lead[i] in cs
    ensures TrimStart(lead + s, cs) == TrimStart(s, cs)
  {
    if lead != [] {
      var t := lead + s;
      assert t[0] in cs && t[1..] == lead[1..] + s;
      TrimStartPrefix(lead[1..], s, cs);
    } else {
      assert lead + s == s;
    }
  }

  /** A string whose two ends lie outside `cs` is left as it is. */
  lemma StripKeeps(s: string, cs: set<char>)
    requires s != [] && s[0] !in cs && s[|s| - 1] !in cs
    ensures Strip(s, cs) == s
  {
  }

  /** Whitespace before a quoted name is stripped, the quotes are not. */
  lemma StripLead(lead: string, g: string, ws: set<char>)
    requires AllIn(lead, ws) && '\'' !in ws
    ensures Strip(lead + Item(g), ws) == Item(g)
  {
    var x := Item(g);
    TrimStartPrefix(lead, x, ws);
    StripKeeps(x, ws);
  }

  /** Taking the quotes off a quoted name without quotes gives the name. */
  lemma StripQuotes(g: string)
    requires Unquoted(g)
    ensures Strip(Item(g), QUOTES) == g
  {
    assert Item(g) == ['\''] + g + ['\''];
    StripEnclosed(g, '\'', QUOTES);
  }

  /** Stripping a set takes off one enclosing character of the set on each
      side and keeps an inside free of the set. */
  lemma StripEnclosed(g: string, c: char, cs: set<char>)
    requires c in cs
    requires forall i :: 0 <= i < |g| ==> g[i] !in cs
    ensures Strip([c] + g + [c], cs) == g
  {
    var x, y := [c] + g + [c], g + [c];
    assert x[0] == c && x[1..] == y;
    assert TrimStart(x, cs) == TrimStart(y, cs);
    if g == [] {
      assert y[0] == c && y[1..] == [];
      assert TrimStart(y, cs) == [];
    } else {
      assert y[0] == g[0] && y[0] !in cs;
      assert TrimStart(y, cs) == y;
      assert y[|y| - 1] == c && y[..|y| - 1] == g;
      assert TrimEnd(y, cs) == TrimEnd(g, cs);
      assert g[|g| - 1] !in cs;
    }
  }

  // ---------------------------------------------------------------------
  // Reading and writing the list literal
  // ---------------------------------------------------------------------

  /** `[g.strip().strip("'\"") for g in pieces if g.strip()]`, where `ws` is
      the set `strip()` removes. */
  function ParseItems(pieces: seq<string>, ws: set<char>): (gs: seq<string>)
    ensures |gs| <= |pieces|
    ensures gs == [] <==> forall i :: 0 <= i < |pieces| ==> Strip(pieces[i], ws) == []
  {
    if pieces == [] then []
    else
      var g := Strip(pieces[0], ws);
      (if g != [] then [Strip(g, QUOTES)] else []) + ParseItems(pieces[1..], ws)
  }

  /** `get_gestures_from_train` on the text of the script: the items of the
      leftmost literal, or no items when there is none. */
  function Parse(content: string): (gs: seq<string>)
    ensures (forall p: nat, q: nat :: !LiteralMatch(content, p, q)) ==> gs == []
  {
    match MatchGestures(content)
    case None => []
    case Some(p, q) => ParseItems(Split(content[p + |OPEN|..q], ','), WHITESPACE)
  }

  /** `f"'{g}'"`. */
  function Item(g: string): string {
    "'" + g + "'"
  }

  /** `", ".join(f"'{g}'" for g in gs)`. */
  function QuotedList(gs: seq<string>): string
  {
    if gs == [] then ""
    else if |gs| == 1 then Item(gs[0])
    else Item(gs[0]) + ", " + QuotedList(gs[1..])
  }

  /** `gesture_list_str`. */
  function Format(gs: seq<string>): (s: string)
    ensures |s| >= 2 && s[0] == '[' && s[|s| - 1] == ']'
  {
    "[" + QuotedList(gs) + "]"
  }

  /** A name survives the write and the read unchanged when it holds no comma
      (the split), no quote (the quote strip), no `]` (the end of the match)
      and no backslash (`re.sub` reads the replacement as a template). */
  predicate CleanName(g: string) {
    forall i :: 0 <= i < |g| ==> g[i] !in {',', '\'', '"', ']', '\\'}
  }

  predicate Clean(gs: seq<string>) {
    forall i :: 0 <= i < |gs| ==> CleanName(gs[i])
  }

  /** The part of cleanliness the read-back needs: no quote character. */
  predicate Unquoted(g: string) {
    forall i :: 0 <= i < |g| ==> g[i] !in QUOTES
  }

  predicate AllUnquoted(gs: seq<string>) {
    forall i :: 0 <= i < |gs| ==> Unquoted(gs[i])
  }

  lemma CleanUnquoted(gs: seq<string>)
    requires Clean(gs)
    ensures AllUnquoted(gs)
  {
    forall i | 0 <= i < |gs| ensures Unquoted(gs[i]) {
      assert CleanName(gs[i]);
    }
  }

  lemma {:induction false} QuotedListChars(gs: seq<string>)
    requires Clean(gs)
    ensures ']' !in QuotedList(gs) && '\\' !in QuotedList(gs)
  {
    if |gs| >= 2 {
      QuotedListChars(gs[1..]);
      assert "'" + gs[0] + "'" + ", " + QuotedList(gs[1..]) ==
        (['\''] + gs[0] + ['\'', ',', ' ']) + QuotedList(gs[1..]);
    }
  }

  /** One written item, after whitespace, reads back as the name. */
  lemma ParseItem(lead: string, g: string, rest: seq<string>, ws: set<char>)
    requires AllIn(lead, ws) && '\'' !in ws
    requires Unquoted(g)
    ensures ParseItems([lead + Item(g)] + rest, ws) == [g] + ParseItems(rest, ws)
  {
    var pieces := [lead + Item(g)] + rest;
    assert pieces[0] == lead + Item(g) && pieces[1..] == rest;
    StripLead(lead, g, ws);
    StripQuotes(g);
    assert ParseItems(pieces, ws) == [Strip(Item(g), QUOTES)] + ParseItems(rest, ws);
  }

  /** A written item holds no comma. */
  lemma ItemNoComma(lead: string, g: string)
    requires ',' !in lead
    requires CleanName(g)
    ensures ',' !in lead + Item(g)
  {
    var a := lead + Item(g);
    forall i | 0 <= i < |a| ensures a[i] != ',' {
      if i < |lead| {
        assert a[i] == lead[i];
      } else if i == |lead| || i == |a| - 1 {
        assert a[i] == '\'';
      } else {
        assert a[i] == g[i - |lead| - 1];
      }
    }
  }

  lemma QuotedListSplits(lead: string, gs: seq<string>)
    requires |gs| >= 2
    ensures lead + QuotedList(gs) == (lead + Item(gs[0])) + [','] + (" " + QuotedList(gs[1..]))
  {
    var x := Item(gs[0]);
    var q := QuotedList(gs[1..]);
    assert QuotedList(gs) == x + ", " + q;
    CommaSpace(lead, x, q);
  }

  lemma CommaSpace(lead: string, x: string, q: string)
    ensures lead + (x + ", " + q) == (lead + x) + [','] + (" " + q)
  {
    assert ", " == [','] + " ";
    calc {
      lead + (x + ", " + q);
      lead + (x + ([','] + " ") + q);
    }
  }

  /** The pieces `split(',')` cuts a written list into: the first name
      quoted after `lead`, each later one after the space written after its
      comma; no names leave `lead` as the one piece. */
  function Pieces(lead: string, gs: seq<string>): seq<string>
    decreases |gs|
  {
    if gs == [] then [lead]
    else if |gs| == 1 then [lead + Item(gs[0])]
    else [lead + Item(gs[0])] + Pieces(" ", gs[1..])
  }

  /** Splitting a written list at its commas cuts it into its pieces. */
  lemma {:induction false} SplitQuotedList(lead: string, gs: seq<string>)
    requires ',' !in lead
    requires Clean(gs)
    ensures Split(lead + QuotedList(gs), ',') == Pieces(lead, gs)
    decreases |gs|
  {
    if gs == [] {
      assert lead + QuotedList([]) == lead;
      SplitNoSep(lead, ',');
    } else if |gs| == 1 {
      ItemNoComma(lead, gs[0]);
      assert lead + QuotedList(gs) == lead + Item(gs[0]);
      SplitNoSep(lead + Item(gs[0]), ',');
    } else {
      QuotedListSplits(lead, gs);
      ItemNoComma(lead, gs[0]);
      SplitAtSep(lead + Item(gs[0]), " " + QuotedList(gs[1..]), ',');
      assert Clean(gs[1..]);
      SplitQuotedList(" ", gs[1..]);
    }
  }

  /** Each piece reads back as its name. */
  lemma {:induction false} ParsePieces(lead: string, gs: seq<string>, ws: set<char>)
    requires AllIn(lead, ws) && WriterSpacing(ws)
    requires AllUnquoted(gs)
    ensures ParseItems(Pieces(lead, gs), ws) == gs
    decreases |gs|
  {
    if gs == [] {
      ParseBlank(lead, ws);
    } else if |gs| == 1 {
      ParseOnePiece(lead, gs[0], ws);
    } else {
      assert AllIn(" ", ws) && AllUnquoted(gs[1..]);
      ParsePieces(" ", gs[1..], ws);
      PiecesCons(lead, gs);
      ParseCons(Pieces(lead, gs), lead, gs[0], Pieces(" ", gs[1..]), gs[1..], ws);
      HeadTail(gs);
    }
  }

  lemma HeadTail<T>(s: seq<T>)
    requires s != []
    ensures [s[0]] + s[1..] == s
  {
  }

  lemma ParseOnePiece(lead: string, g: string, ws: set<char>)
    requires AllIn(lead, ws) && '\'' !in ws && Unquoted(g)
    ensures ParseItems(Pieces(lead, [g]), ws) == [g]
  {
    assert Pieces(lead, [g]) == [lead + Item(g)] + [];
    ParseItem(lead, g, [], ws);
  }

  lemma PiecesCons(lead: string, gs: seq<string>)
    requires |gs| >= 2
    ensures Pieces(lead, gs) == [lead + Item(gs[0])] + Pieces(" ", gs[1..])
  {
  }

  /** A first piece holding one quoted name adds that name in front of what
      the other pieces read as. */
  lemma ParseCons(pieces: seq<string>, lead: string, g: string, rest: seq<string>, names: seq<string>,
                  ws: set<char>)
    requires pieces == [lead + Item(g)] + rest
    requires AllIn(lead, ws) && '\'' !in ws && Unquoted(g)
    requires ParseItems(rest, ws) == names
    ensures ParseItems(pieces, ws) == [g] + names
  {
    ParseItem(lead, g, rest, ws);
  }

  /** A piece of whitespace alone reads as no name. */
  lemma ParseBlank(lead: string, ws: set<char>)
    requires AllIn(lead, ws)
    ensures ParseItems([lead], ws) == []
  {
    assert Strip(lead, ws) == [];
    assert [lead][1..] == [];
  }

  /** Reading back the items of a written list, after any run of whitespace. */
  lemma ParseQuotedList(lead: string, gs: seq<string>, ws: set<char>)
    requires AllIn(lead, ws) && WriterSpacing(ws)
    requires Clean(gs)
    ensures ParseItems(Split(lead + QuotedList(gs), ','), ws) == gs
  {
    assert ',' !in lead;
    SplitQuotedList(lead, gs);
    CleanUnquoted(gs);
    ParsePieces(lead, gs, ws);
  }

  /** `re.sub(r"GESTURES = \[.*?\]", f"GESTURES = {gesture_list_str}", content,
      flags=re.DOTALL)`: every match, left to right, is replaced. */
  function SubGestures(content: string, gs: seq<string>): string
    decreases |content|
  {
    match MatchGestures(content)
    case None => content
    case Some(p, q) => content[..p] + Replacement(gs) + SubGestures(content[q + 1..], gs)
  }

  /** Round trip: once the list is written into a script that holds a list
      literal, reading the script gives the list back. */
  lemma ParseAfterSubGestures(content: string, gs: seq<string>)
    requires MatchGestures(content).Some?
    requires Clean(gs)
    ensures Parse(SubGestures(content, gs)) == gs
  {
    RewrittenMatch(content, gs);
    ParseWritten(SubGestures(content, gs), MatchGestures(content).p, gs);
  }

  /** A script whose leftmost literal holds a written list reads as that list. */
  lemma ParseWritten(s: string, p: nat, gs: seq<string>)
    requires Clean(gs)
    requires MatchGestures(s) == Some(p, p + |OPEN| + |QuotedList(gs)|)
    requires s[p + |OPEN|..p + |OPEN| + |QuotedList(gs)|] == QuotedList(gs)
    ensures Parse(s) == gs
  {
    var ql := QuotedList(gs);
    var m := MatchGestures(s);
    var body := s[m.p + |OPEN|..m.q];
    assert body == ql;
    assert Parse(s) == ParseItems(Split(body, ','), WHITESPACE);
    WhitespaceSpacing();
    ParseQuotedList("", gs, WHITESPACE);
    assert "" + ql == ql;
  }

  /** The leftmost literal of the rewritten script is the one just written. */
  lemma RewrittenMatch(content: string, gs: seq<string>)
    requires MatchGestures(content).Some?
    requires Clean(gs)
    ensures var p := MatchGestures(content).p; var ql := QuotedList(gs); var s := SubGestures(content, gs);
      MatchGestures(s) == Some(p, p + |OPEN| + |ql|) && s[p + |OPEN|..p + |OPEN| + |ql|] == ql
  {
    var p := MatchGestures(content).p;
    var ql := QuotedList(gs);
    var s := SubGestures(content, gs);
    SubGesturesShape(content, gs);
    QuotedListChars(gs);
    WrittenLiteralMatches(s, p, ql);
    forall p': nat, q': nat | p' < p ensures !LiteralMatch(s, p', q') {
      NoEarlierLiteral(content, s, p', q');
    }
    MatchGesturesUnique(s, p, p + |OPEN| + |ql|);
  }

  /** `s` agrees with `content` up to the end of the literal at p, and holds
      `ql` and a closing bracket right after it. */
  predicate WrittenAt(s: string, content: string, p: nat, ql: string) {
    |s| > p + |OPEN| + |ql| && |content| >= p + |OPEN| && s[..p + |OPEN|] == content[..p + |OPEN|] &&
    s[p + |OPEN|..p + |OPEN| + |ql|] == ql && s[p + |OPEN| + |ql|] == ']'
  }

  /** Where the first match was, the rewritten script holds the literal, the
      written list and a closing bracket. */
  lemma SubGesturesShape(content: string, gs: seq<string>)
    requires MatchGestures(content).Some?
    ensures WrittenAt(SubGestures(content, gs), content, MatchGestures(content).p, QuotedList(gs))
  {
    var m := MatchGestures(content);
    var ql := QuotedList(gs);
    SubGesturesSplit(content, gs);
    var tail :| SubGestures(content, gs) == content[..m.p] + (OPEN + ql + "]") + tail;
    LayoutAt(SubGestures(content, gs), content, m.p, ql, tail);
  }

  /** One step of the rewrite: the text before the first match, then the new
      literal, then the rewrite of the rest after the old bracket. */
  lemma SubGesturesUnfold(content: string, gs: seq<string>)
    requires MatchGestures(content).Some?
    ensures var m := MatchGestures(content);
      SubGestures(content, gs) == content[..m.p] + (OPEN + QuotedList(gs) + "]") + SubGestures(content[m.q + 1..], gs)
  {
    ReplacementShape(gs);
  }

  /** The same step with the rest left unnamed. */
  lemma SubGesturesSplit(content: string, gs: seq<string>)
    requires MatchGestures(content).Some?
    ensures exists tail :: SubGestures(content, gs) == content[..MatchGestures(content).p] + (OPEN + QuotedList(gs) + "]") + tail
  {
    var m := MatchGestures(content);
    ReplacementShape(gs);
    HasTail(SubGestures(content, gs), content[..m.p], OPEN + QuotedList(gs) + "]", SubGestures(content[m.q + 1..], gs));
  }

  lemma HasTail<T>(x: seq<T>, a: seq<T>, b: seq<T>, tail: seq<T>)
    requires x == a + b + tail
    ensures exists t :: x == a + b + t
  {
  }

  /** The layout of a script in which the literal at p is followed by the
      written list and its bracket. */
  lemma LayoutAt(s: string, content: string, p: nat, ql: string, tail: string)
    requires StartsAt(content, OPEN, p)
    requires s == content[..p] + (OPEN + ql + "]") + tail
    ensures WrittenAt(s, content, p, ql)
  {
    PiecesAt(content[..p], OPEN, ql, tail);
    assert content[..p + |OPEN|] == content[..p] + OPEN by {
      assert content[p..p + |OPEN|] == OPEN;
    }
  }

  /** `f"GESTURES = {gesture_list_str}"`. */
  function Replacement(gs: seq<string>): string {
    ASSIGN + Format(gs)
  }

  lemma ReplacementShape(gs: seq<string>)
    ensures Replacement(gs) == OPEN + QuotedList(gs) + "]"
  {
  }

  lemma PiecesAt(pre: string, open: string, ql: string, tail: string)
    ensures var s := pre + (open + ql + "]") + tail;
      |s| > |pre| + |open| + |ql| && s[..|pre| + |open|] == pre + open &&
      s[|pre| + |open|..|pre| + |open| + |ql|] == ql && s[|pre| + |open| + |ql|] == ']'
  {
  }

  /** The literal followed by a list without `]` and then `]` is a match. */
  lemma WrittenLiteralMatches(s: string, p: nat, ql: string)
    requires |s| > p + |OPEN| + |ql| && StartsAt(s, OPEN, p)
    requires s[p + |OPEN|..p + |OPEN| + |ql|] == ql && s[p + |OPEN| + |ql|] == ']' && ']' !in ql
    ensures LiteralMatch(s, p, p + |OPEN| + |ql|)
  {
    forall i | p + |OPEN| <= i < p + |OPEN| + |ql| ensures s[i] != ']' {
      assert s[i] == ql[i - p - |OPEN|];
    }
  }

  /** A literal left of the first match of the old script would, with that
      match's bracket after it, have been an earlier match. */
  lemma NoEarlierLiteral(content: string, s: string, p': nat, q': nat)
    requires MatchGestures(content).Some?
    requires p' < MatchGestures(content).p
    requires |s| >= MatchGestures(content).p + |OPEN|
    requires s[..MatchGestures(content).p + |OPEN|] == content[..MatchGestures(content).p + |OPEN|]
    ensures !LiteralMatch(s, p', q')
  {
    var m := MatchGestures(content);
    assert !StartsAt(content, OPEN, p');
    SamePrefixStartsAt(s, content, OPEN, p', m.p + |OPEN|);
  }

  /** Whether a pattern occurs at i depends only on the characters up to its end. */
  lemma SamePrefixStartsAt(s: string, t: string, pat: string, i: nat, bound: nat)
    requires i + |pat| <= bound <= |s| && bound <= |t| && s[..bound] == t[..bound]
    ensures StartsAt(s, pat, i) == StartsAt(t, pat, i)
  {
    assert s[i..i + |pat|] == s[..bound][i..i + |pat|];
    assert t[i..i + |pat|] == t[..bound][i..i + |pat|];
  }

  // ---------------------------------------------------------------------
  // NUM_CLASSES
  // ---------------------------------------------------------------------

  /** `NUM_CLASSES = \d+` can start at i: the literal, then a digit. */
  predicate NumMatchAt(s: string, i: nat) {
    StartsAt(s, NUM_KEY, i) && i + |NUM_KEY| < |s| && IsDigit(s[i + |NUM_KEY|])
  }

  /** The leftmost position at or after `from` where the pattern matches. */
  function FindNum(s: string, from: nat): (k: int)
    ensures k == -1 || (from <= k && NumMatchAt(s, k))
    ensures forall i :: from <= i && (k == -1 || i < k) ==> !NumMatchAt(s, i)
    decreases |s| - from
  {
    if from >= |s| then -1
    else if NumMatchAt(s, from) then from
    else FindNum(s, from + 1)
  }

  /** Where the greedy `\d+` starting at i stops. */
  function DigitsEnd(s: string, i: nat): (e: nat)
    requires i <= |s|
    ensures i <= e <= |s| && AllDigits(s[i..e])
    ensures e == |s| || !IsDigit(s[e])
    decreases |s| - i
  {
    if i < |s| && IsDigit(s[i]) then
      var e := DigitsEnd(s, i + 1);
      assert s[i..e] == [s[i]] + s[i + 1..e];
      e
    else i
  }

  /** `f"NUM_CLASSES = {n}"`. */
  function NumReplacement(n: nat): (t: string)
    ensures |t| > |NUM_KEY| && t[..|NUM_KEY|] == NUM_KEY && t[|NUM_KEY|..] == NatToString(n)
  {
    NUM_KEY + NatToString(n)
  }

  /** `re.sub(r"NUM_CLASSES = \d+", f"NUM_CLASSES = {n}", content)`. */
  function SubNumClasses(s: string, n: nat): (r: string)
    ensures s == [] <==> r == []
    ensures s != [] ==> r[0] == s[0]
    decreases |s|
  {
    var k := FindNum(s, 0);
    if k < 0 then s
    else
      var e := DigitsEnd(s, k + |NUM_KEY|);
      var t := NumReplacement(n);
      var r := s[..k] + t + SubNumClasses(s[e..], n);
      assert k == 0 ==> r[0] == t[0] == NUM_KEY[0] == s[0];
      r
  }

  /** The number the first `NUM_CLASSES = <digits>` of a script states. */
  function ReadNumClasses(s: string): (r: int)
    ensures r == -1 <==> FindNum(s, 0) == -1
  {
    var k := FindNum(s, 0);
    if k < 0 then -1 else DigitsValue(s[k + |NUM_KEY|..DigitsEnd(s, k + |NUM_KEY|)])
  }

  /** After the rewrite the script states exactly n classes. */
  lemma ReadAfterSubNumClasses(s: string, n: nat)
    requires FindNum(s, 0) >= 0
    ensures ReadNumClasses(SubNumClasses(s, n)) == n
  {
    var k := FindNum(s, 0);
    var d := NatToString(n);
    var r := SubNumClasses(s, n);
    var start := k + |NUM_KEY|;
    SubNumShape(s, n);
    NewMatchFirst(s, r, k, d);
    ReadDigitsAt(r, k, d);
    NatToStringValue(n);
  }

  /** The first match in the rewritten text is where the old first match was. */
  lemma NewMatchFirst(s: string, r: string, k: nat, d: string)
    requires k + |NUM_KEY| + |d| <= |r| && k + |NUM_KEY| <= |s| && |d| >= 1 && AllDigits(d)
    requires r[..k + |NUM_KEY|] == s[..k + |NUM_KEY|] && r[k + |NUM_KEY|..k + |NUM_KEY| + |d|] == d
    requires StartsAt(s, NUM_KEY, k)
    requires forall i :: 0 <= i < k ==> !NumMatchAt(s, i)
    ensures FindNum(r, 0) == k
  {
    var start := k + |NUM_KEY|;
    assert NumMatchAt(r, k) by {
      assert r[k..start] == r[..start][k..start] == s[..start][k..start];
      assert r[start] == r[start..start + |d|][0] == d[0];
    }
    forall i | 0 <= i < k ensures !NumMatchAt(r, i) {
      NumMatchSamePrefix(s, r, i, start);
    }
    FindNumIs(r, k);
  }

  lemma FindNumIs(r: string, k: nat)
    requires NumMatchAt(r, k)
    requires forall i :: 0 <= i < k ==> !NumMatchAt(r, i)
    ensures FindNum(r, 0) == k
  {
  }

  /** The digits read at the first match are the new digits. */
  lemma ReadDigitsAt(r: string, k: nat, d: string)
    requires FindNum(r, 0) == k && AllDigits(d)
    requires k + |NUM_KEY| + |d| <= |r| && r[k + |NUM_KEY|..k + |NUM_KEY| + |d|] == d
    requires k + |NUM_KEY| + |d| == |r| || !IsDigit(r[k + |NUM_KEY| + |d|])
    ensures ReadNumClasses(r) == DigitsValue(d)
  {
    var start := k + |NUM_KEY|;
    var end := start + |d|;
    forall i | start <= i < end ensures IsDigit(r[i]) {
      assert r[i] == r[start..end][i - start];
    }
    DigitsEndAt(r, start, end);
  }

  /** The rewritten script agrees with the old one up to the digits, holds
      the new digits there, and then a non-digit or its end. */
  lemma SubNumShape(s: string, n: nat)
    requires FindNum(s, 0) >= 0
    ensures var k := FindNum(s, 0); var r := SubNumClasses(s, n); var d := NatToString(n);
      var start := k + |NUM_KEY|;
      |r| >= start + |d| && |s| >= start && r[..start] == s[..start] && r[start..start + |d|] == d &&
      (start + |d| == |r| || !IsDigit(r[start + |d|]))
  {
    var k := FindNum(s, 0);
    var start := k + |NUM_KEY|;
    var e := DigitsEnd(s, start);
    var d := NatToString(n);
    var tail := SubNumClasses(s[e..], n);
    SubNumUnfold(s, n);
    if tail != [] {
      assert tail[0] == s[e..][0] == s[e];
    }
    NumLayoutAt(SubNumClasses(s, n), s, k, e, d, tail);
  }

  /** One step of the rewrite: the text before the first match, the new
      key and digits, and the rewrite of the rest after the old digits. */
  lemma SubNumUnfold(s: string, n: nat)
    requires FindNum(s, 0) >= 0
    ensures var k := FindNum(s, 0); var e := DigitsEnd(s, k + |NUM_KEY|);
      SubNumClasses(s, n) == s[..k] + (NUM_KEY + NatToString(n)) + SubNumClasses(s[e..], n)
  {
  }

  /** The layout of a script in which the key at k is followed by the new
      digits and then by what followed the old digits, which ended at e. */
  lemma NumLayoutAt(r: string, s: string, k: nat, e: nat, d: string, tail: string)
    requires StartsAt(s, NUM_KEY, k) && k + |NUM_KEY| <= e <= |s|
    requires r == s[..k] + (NUM_KEY + d) + tail
    requires tail == [] <==> e == |s|
    requires tail != [] ==> tail[0] == s[e] && !IsDigit(s[e])
    ensures var start := k + |NUM_KEY|;
      |r| >= start + |d| && |s| >= start && r[..start] == s[..start] && r[start..start + |d|] == d &&
      (start + |d| == |r| || !IsDigit(r[start + |d|]))
  {
    var start := k + |NUM_KEY|;
    KeyThenValue(s[..k], NUM_KEY, d, tail);
    assert s[..start] == s[..k] + NUM_KEY by {
      assert s[k..start] == NUM_KEY;
      PrefixSplit(s, k, start);
    }
  }

  /** The layout of `pre + (key + value) + tail`. */
  lemma KeyThenValue<T>(pre: seq<T>, key: seq<T>, value: seq<T>, tail: seq<T>)
    ensures var r := pre + (key + value) + tail; var start := |pre| + |key|;
      |r| == start + |value| + |tail| && r[..start] == pre + key &&
      r[start..start + |value|] == value && (tail != [] ==> r[start + |value|] == tail[0])
  {
  }

  lemma PrefixSplit<T>(s: seq<T>, k: nat, m: nat)
    requires k <= m <= |s|
    ensures s[..m] == s[..k] + s[k..m]
  {
  }

  /** Whether the pattern starts at i is decided by the characters before
      position m + 1 when i < m - 14 + 1. */
  lemma NumMatchSamePrefix(s: string, r: string, i: nat, m: nat)
    requires i + |NUM_KEY| < m <= |s| && m <= |r| && r[..m] == s[..m]
    ensures NumMatchAt(r, i) == NumMatchAt(s, i)
  {
    assert r[i..i + |NUM_KEY|] == r[..m][i..i + |NUM_KEY|];
    assert s[i..i + |NUM_KEY|] == s[..m][i..i + |NUM_KEY|];
    assert r[i + |NUM_KEY|] == r[..m][i + |NUM_KEY|];
    assert s[i + |NUM_KEY|] == s[..m][i + |NUM_KEY|];
  }

  lemma {:induction false} DigitsEndAt(s: string, i: nat, e: nat)
    requires i <= e <= |s|
    requires forall j :: i <= j < e ==> IsDigit(s[j])
    requires e == |s| || !IsDigit(s[e])
    ensures DigitsEnd(s, i) == e
    decreases e - i
  {
    if i < e {
      DigitsEndAt(s, i + 1, e);
    }
  }

  // ---------------------------------------------------------------------
  // Label map and the add rule
  // ---------------------------------------------------------------------

  /** `{str(i): g for i, g in enumerate(gs)}`: key `str(i)` holds name i,
      and there are no other keys. */
  function LabelMap(gs: seq<string>): (m: map<string, string>)
    ensures forall i :: 0 <= i < |gs| ==> NatToString(i) in m && m[NatToString(i)] == gs[i]
    ensures forall k :: k in m ==> exists i :: 0 <= i < |gs| && k == NatToString(i)
  {
    assert forall a: nat, b: nat :: NatToString(a) == NatToString(b) ==> a == b by {
      forall a: nat, b: nat | NatToString(a) == NatToString(b) ensures a == b {
        NatToStringInjective(a, b);
      }
    }
    map i | 0 <= i < |gs| :: NatToString(i) := gs[i]
  }

  predicate NoDuplicates(gs: seq<string>) {
    forall i, j :: 0 <= i < j < |gs| ==> gs[i] != gs[j]
  }

  /** Appending a name that is not yet listed keeps the list free of repeats. */
  lemma AppendFreshNoDuplicates(gs: seq<string>, g: string)
    requires g !in gs
    ensures NoDuplicates(gs) ==> NoDuplicates(gs + [g])
  {
    if NoDuplicates(gs) {
      var t := gs + [g];
      forall i, j | 0 <= i < j < |t| ensures t[i] != t[j] {
        if j == |gs| {
          assert t[i] == gs[i] && t[j] == g;
        } else {
          assert t[i] == gs[i] && t[j] == gs[j];
        }
      }
    }
  }

  /** The three files `update_all_files` writes. */
  datatype Files = Files(train: string, convert: string, labels: map<string, string>)

  /** `update_all_files`: the list written into both scripts, NUM_CLASSES set
      to its length in the training script, and the label map. */
  method UpdateAllFiles(train: string, convert: string, gs: seq<string>) returns (out: Files)
    ensures out.convert == SubGestures(convert, gs)
    ensures Clean(gs) && MatchGestures(convert).Some? ==> Parse(out.convert) == gs
    ensures out.train == SubNumClasses(SubGestures(train, gs), |gs|)
    ensures FindNum(SubGestures(train, gs), 0) >= 0 ==> ReadNumClasses(out.train) == |gs|
    ensures FindNum(SubGestures(train, gs), 0) < 0 ==> out.train == SubGestures(train, gs)
    ensures Clean(gs) && AllKeyFree(gs) && MatchGestures(train).Some? ==> Parse(out.train) == gs
    ensures out.labels == LabelMap(gs)
  {
    var content := SubGestures(train, gs);
    if FindNum(content, 0) >= 0 {
      ReadAfterSubNumClasses(content, |gs|);
    }
    if Clean(gs) && AllKeyFree(gs) && MatchGestures(train).Some? {
      TrainReadsBack(train, gs, |gs|);
    }
    content := SubNumClasses(content, |gs|);
    var cContent := SubGestures(convert, gs);
    if Clean(gs) && MatchGestures(convert).Some? {
      ParseAfterSubGestures(convert, gs);
    }
    out := Files(content, cContent, LabelMap(gs));
  }

  /** The NUM_CLASSES rewrite also reaches into the list literal written just
      before it. In a training script holding only `GESTURES = []`, a listed
      name reading `NUM_CLASSES = 7` is written and then rewritten to
      `NUM_CLASSES = 1`, so the script no longer reads back as the list. */
  lemma NumRewriteReachesList()
    ensures var gs := [NUM_KEY + "7"];
      var train := SubNumClasses(SubGestures(OPEN + "]", gs), |gs|);
      Clean(gs) && MatchGestures(OPEN + "]").Some? &&
      Parse(train) == [NUM_KEY + "1"] && Parse(train) != gs
  {
    var pre, post := OPEN + "'", "']";
    WrittenKey("7");
    WrittenKey("1");
    assert NUM_KEY[0] !in pre;
    SubNumOne(pre, "7", post, 1);
    assert NatToString(1) == "1";
    assert pre + NumReplacement(1) + post == pre + NUM_KEY + "1" + post;
    CleanKeyDigit('7');
    CleanKeyDigit('1');
    EmptyLiteralMatch();
    ParseAfterSubGestures(OPEN + "]", [NUM_KEY + "1"]);
  }

  /** The name `NUM_CLASSES = <digit>` is clean. */
  lemma CleanKeyDigit(c: char)
    requires IsDigit(c)
    ensures Clean([NUM_KEY + [c]])
  {
    var g := NUM_KEY + [c];
    forall i | 0 <= i < |g| ensures g[i] !in {',', '\'', '"', ']', '\\'} {
      if i < |NUM_KEY| {
        assert g[i] == NUM_KEY[i];
      }
    }
    assert CleanName([NUM_KEY + [c]][0]);
  }

  /** `NUM_CLASSES = <d>` written as the only name over an empty literal. */
  lemma WrittenKey(d: string)
    ensures SubGestures(OPEN + "]", [NUM_KEY + d]) == (OPEN + "'") + NUM_KEY + d + "']"
  {
    WrittenOne([NUM_KEY + d]);
    Regroup(OPEN, "'", NUM_KEY, d, "]");
    assert "'" + "]" == "']";
  }

  lemma Regroup<T>(o: seq<T>, q: seq<T>, k: seq<T>, d: seq<T>, c: seq<T>)
    ensures o + (q + (k + d) + q) + c == (o + q) + k + d + (q + c)
  {
  }

  lemma EmptyLiteralMatch()
    ensures MatchGestures(OPEN + "]") == Some(0, |OPEN|)
  {
    var c := OPEN + "]";
    assert c[..|OPEN|] == OPEN;
    assert StartsAt(c, OPEN, 0);
    assert StartsAt(c, "]", |OPEN|);
  }

  /** A one-name list written over an empty literal. */
  lemma WrittenOne(gs: seq<string>)
    requires |gs| == 1
    ensures SubGestures(OPEN + "]", gs) == OPEN + Item(gs[0]) + "]"
  {
    var c := OPEN + "]";
    EmptyLiteralMatch();
    ReplacementShape(gs);
    assert c[|OPEN| + 1..] == [];
    assert Find([], OPEN, 0) == -1;
    assert SubGestures(c, gs) == Replacement(gs) + SubGestures([], gs);
  }

  /** A script with one `NUM_CLASSES = <digits>` and no other `N` gets just
      that number replaced. */
  lemma SubNumOne(pre: string, d: string, post: string, n: nat)
    requires NUM_KEY[0] !in pre && NUM_KEY[0] !in post
    requires |d| >= 1 && AllDigits(d) && (post == [] || !IsDigit(post[0]))
    ensures SubNumClasses(pre + NUM_KEY + d + post, n) == pre + NumReplacement(n) + post
  {
    OneMatchAt(pre, d, post);
    NoMatchLeft(post, n);
  }

  /** The one match, and where its digits end. */
  lemma OneMatchAt(pre: string, d: string, post: string)
    requires NUM_KEY[0] !in pre
    requires |d| >= 1 && AllDigits(d) && (post == [] || !IsDigit(post[0]))
    ensures var s := pre + NUM_KEY + d + post; var start := |pre| + |NUM_KEY|;
      FindNum(s, 0) == |pre| && DigitsEnd(s, start) == start + |d| &&
      s[..|pre|] == pre && s[start + |d|..] == post
  {
    var s := pre + NUM_KEY + d + post;
    var start := |pre| + |NUM_KEY|;
    KeyThenValue(pre, NUM_KEY, d, post);
    assert s == pre + (NUM_KEY + d) + post;
    FirstMatchAt(pre, s);
    OneDigitsEnd(s, start, d, post);
  }

  lemma FirstMatchAt(pre: string, s: string)
    requires NUM_KEY[0] !in pre
    requires |s| > |pre| + |NUM_KEY| && s[..|pre| + |NUM_KEY|] == pre + NUM_KEY && IsDigit(s[|pre| + |NUM_KEY|])
    ensures FindNum(s, 0) == |pre|
  {
    var k := |pre|;
    var start := k + |NUM_KEY|;
    assert s == pre + s[k..];
    KeyAbsent(pre, s[k..]);
    assert NumMatchAt(s, k) by {
      assert s[k..start] == s[..start][k..start] == NUM_KEY;
    }
    FindNumIs(s, k);
  }

  lemma OneDigitsEnd(s: string, start: nat, d: string, post: string)
    requires |d| >= 1 && AllDigits(d) && (post == [] || !IsDigit(post[0]))
    requires |s| == start + |d| + |post| && s[start..start + |d|] == d && s[start + |d|..] == post
    ensures DigitsEnd(s, start) == start + |d|
  {
    var e := start + |d|;
    forall j | start <= j < e ensures IsDigit(s[j]) {
      assert s[j] == s[start..e][j - start];
    }
    assert e == |s| || s[e] == s[e..][0];
    DigitsEndAt(s, start, e);
  }

  /** A script without `N` is left as it is. */
  lemma NoMatchLeft(post: string, n: nat)
    requires NUM_KEY[0] !in post
    ensures SubNumClasses(post, n) == post
  {
    KeyAbsent(post, []);
    assert post + [] == post;
    FindNumNone(post, 0);
  }

  /** No match of the pattern can start on a character other than `N`. */
  lemma KeyAbsent(pre: string, rest: string)
    requires NUM_KEY[0] !in pre
    ensures forall i :: 0 <= i < |pre| ==> !NumMatchAt(pre + rest, i)
  {
    var s := pre + rest;
    forall i | 0 <= i < |pre| ensures !NumMatchAt(s, i) {
      assert s[i] == pre[i];
      StartsAtFirst(s, NUM_KEY, i);
    }
  }

  lemma StartsAtFirst(s: string, pat: string, i: nat)
    requires |pat| > 0
    ensures StartsAt(s, pat, i) ==> i < |s| && s[i] == pat[0]
  {
    if StartsAt(s, pat, i) {
      assert s[i..i + |pat|][0] == s[i];
    }
  }

  lemma {:induction false} FindNumNone(s: string, from: nat)
    requires forall i :: from <= i < |s| ==> !NumMatchAt(s, i)
    ensures FindNum(s, from) == -1
    decreases |s| - from
  {
    if from < |s| {
      FindNumNone(s, from + 1);
    }
  }

  // ---------------------------------------------------------------------
  // The training script after both rewrites
  // ---------------------------------------------------------------------

  /** `g` holds no `NUM_CLASSES = `. */
  predicate KeyFree(g: string) {
    forall i :: 0 <= i < |g| ==> !StartsAt(g, NUM_KEY, i)
  }

  predicate AllKeyFree(gs: seq<string>) {
    forall i :: 0 <= i < |gs| ==> KeyFree(gs[i])
  }

  /** When no listed name holds `NUM_CLASSES = `, the NUM_CLASSES rewrite
      leaves the written literal alone and the training script reads back as
      the list. */
  lemma TrainReadsBack(train: string, gs: seq<string>, n: nat)
    requires MatchGestures(train).Some?
    requires Clean(gs) && AllKeyFree(gs)
    ensures Parse(SubNumClasses(SubGestures(train, gs), n)) == gs
  {
    var s := SubGestures(train, gs);
    var w := OPEN + QuotedList(gs) + "]";
    RewrittenMatch(train, gs);
    LiteralStartsAt(s, MatchGestures(train).p, QuotedList(gs));
    WrittenKeyFree(gs);
    WrittenEnds(QuotedList(gs));
    var p' := SubNumKeepsLiteral(s, n, MatchGestures(train).p, w);
    BlockParses(SubNumClasses(s, n), p', gs);
  }

  lemma WrittenEnds(ql: string)
    ensures var w := OPEN + ql + "]";
      |w| >= |OPEN| && w[0] !in NUM_KEY && !IsDigit(w[0]) && w[|w| - 1] !in NUM_KEY
  {
    var w := OPEN + ql + "]";
    assert w[0] == OPEN[0] == 'G' && w[|w| - 1] == ']';
  }

  /** A script whose first literal starts the written block reads as the
      written list. */
  lemma BlockParses(t: string, p: nat, gs: seq<string>)
    requires Clean(gs)
    requires StartsAt(t, OPEN + QuotedList(gs) + "]", p)
    requires forall i :: 0 <= i < p ==> !StartsAt(t, OPEN, i)
    ensures Parse(t) == gs
  {
    QuotedListChars(gs);
    BlockMatches(t, p, QuotedList(gs));
    ParseWritten(t, p, gs);
  }

  /** The first literal starts the block, so the match ends at its bracket. */
  lemma BlockMatches(t: string, p: nat, ql: string)
    requires ']' !in ql
    requires StartsAt(t, OPEN + ql + "]", p)
    requires forall i :: 0 <= i < p ==> !StartsAt(t, OPEN, i)
    ensures MatchGestures(t) == Some(p, p + |OPEN| + |ql|)
    ensures t[p + |OPEN|..p + |OPEN| + |ql|] == ql
  {
    LiteralOfWritten(t, p, ql);
    WrittenLiteralMatches(t, p, ql);
    forall p0: nat, q0: nat | p0 < p ensures !LiteralMatch(t, p0, q0) {
    }
    MatchGesturesUnique(t, p, p + |OPEN| + |ql|);
  }

  /** The leftmost literal and its list, read as one written block. */
  lemma LiteralStartsAt(s: string, p: nat, ql: string)
    requires MatchGestures(s) == Some(p, p + |OPEN| + |ql|)
    requires s[p + |OPEN|..p + |OPEN| + |ql|] == ql
    ensures StartsAt(s, OPEN + ql + "]", p)
    ensures forall i :: 0 <= i < p ==> !StartsAt(s, OPEN, i)
  {
    var q := p + |OPEN| + |ql|;
    assert s[p..p + |OPEN|] == OPEN;
    assert s[p..q + 1] == s[p..p + |OPEN|] + s[p + |OPEN|..q] + [s[q]];
  }

  lemma LiteralOfWritten(t: string, p: nat, ql: string)
    requires StartsAt(t, OPEN + ql + "]", p)
    ensures |t| > p + |OPEN| + |ql| && StartsAt(t, OPEN, p)
    ensures t[p + |OPEN|..p + |OPEN| + |ql|] == ql && t[p + |OPEN| + |ql|] == ']'
  {
    var w := OPEN + ql + "]";
    var q := p + |OPEN| + |ql|;
    assert t[p..p + |w|] == w;
    assert t[p..p + |OPEN|] == t[p..p + |w|][..|OPEN|];
    assert t[p + |OPEN|..q] == t[p..p + |w|][|OPEN|..|OPEN| + |ql|];
    assert t[q] == t[p..p + |w|][|OPEN| + |ql|];
  }

  /** The NUM_CLASSES rewrite moves the written block but keeps it whole, and
      puts no literal in front of it. */
  lemma {:induction false} SubNumKeepsLiteral(s: string, n: nat, p: nat, w: string) returns (p': nat)
    requires StartsAt(s, w, p) && |w| >= |OPEN| && KeyFree(w)
    requires w[0] !in NUM_KEY && !IsDigit(w[0]) && w[|w| - 1] !in NUM_KEY
    requires forall i :: 0 <= i < p ==> !StartsAt(s, OPEN, i)
    ensures StartsAt(SubNumClasses(s, n), w, p')
    ensures forall i :: 0 <= i < p' ==> !StartsAt(SubNumClasses(s, n), OPEN, i)
    decreases |s|
  {
    var k := FindNum(s, 0);
    if k < 0 {
      p' := p;
    } else if k >= p + |w| {
      p' := p;
      FarRewrite(s, n, p, w);
    } else {
      var e := NearRewrite(s, n, p, w);
      var p0 := SubNumKeepsLiteral(s[e..], n, p - e, w);
      p' := StepKeepsLiteral(s, SubNumClasses(s, n), k, NatToString(n), SubNumClasses(s[e..], n), p, w, p0);
    }
  }

  /** The first rewrite starts right of the block. */
  lemma FarRewrite(s: string, n: nat, p: nat, w: string)
    requires StartsAt(s, w, p) && |w| >= |OPEN| && FindNum(s, 0) >= p + |w|
    requires forall i :: 0 <= i < p ==> !StartsAt(s, OPEN, i)
    ensures StartsAt(SubNumClasses(s, n), w, p)
    ensures forall i :: 0 <= i < p ==> !StartsAt(SubNumClasses(s, n), OPEN, i)
  {
    var k := FindNum(s, 0);
    SubNumUnfold(s, n);
    var t := SubNumClasses(s, n);
    assert t[..k] == s[..k];
    KeptBefore(s, t, k, p, w);
  }

  /** The first rewrite starts left of the end of the block, so it ends,
      digits and all, before the block: the step and the rest it leaves. */
  lemma NearRewrite(s: string, n: nat, p: nat, w: string) returns (e: nat)
    requires StartsAt(s, w, p) && |w| > 0 && KeyFree(w)
    requires w[0] !in NUM_KEY && !IsDigit(w[0]) && w[|w| - 1] !in NUM_KEY
    requires forall i :: 0 <= i < p ==> !StartsAt(s, OPEN, i)
    requires 0 <= FindNum(s, 0) < p + |w|
    ensures var k := FindNum(s, 0);
      StartsAt(s, NUM_KEY, k) && k + |NUM_KEY| <= e <= p &&
      SubNumClasses(s, n) == s[..k] + (NUM_KEY + NatToString(n)) + SubNumClasses(s[e..], n)
    ensures StartsAt(s[e..], w, p - e)
    ensures forall i :: 0 <= i < p - e ==> !StartsAt(s[e..], OPEN, i)
  {
    var k := FindNum(s, 0);
    e := DigitsEnd(s, k + |NUM_KEY|);
    SubNumUnfold(s, n);
    KeyBeforeLiteral(s, k, p, w);
    RestHoldsLiteral(s, e, p, w);
  }

  /** A rewrite that starts right of the block changes nothing up to it. */
  lemma KeptBefore(s: string, t: string, k: nat, p: nat, w: string)
    requires StartsAt(s, w, p) && |w| >= |OPEN| && p + |w| <= k <= |s|
    requires forall i :: 0 <= i < p ==> !StartsAt(s, OPEN, i)
    requires k <= |t| && t[..k] == s[..k]
    ensures StartsAt(t, w, p)
    ensures forall i :: 0 <= i < p ==> !StartsAt(t, OPEN, i)
  {
    SamePrefixStartsAt(t, s, w, p, k);
    forall i | 0 <= i < p ensures !StartsAt(t, OPEN, i) {
      SamePrefixStartsAt(t, s, OPEN, i, k);
    }
  }

  /** What is left after a match that ends before the block still holds the
      block, with no literal in front of it. */
  lemma RestHoldsLiteral(s: string, e: nat, p: nat, w: string)
    requires e <= p && StartsAt(s, w, p)
    requires forall i :: 0 <= i < p ==> !StartsAt(s, OPEN, i)
    ensures StartsAt(s[e..], w, p - e)
    ensures forall i :: 0 <= i < p - e ==> !StartsAt(s[e..], OPEN, i)
  {
    ShiftStartsAt(s, e, w, p - e);
    forall i | 0 <= i < p - e ensures !StartsAt(s[e..], OPEN, i) {
      ShiftStartsAt(s, e, OPEN, i);
    }
  }

  /** One rewrite step left of the block, put together with what the
      rewritten rest keeps. */
  lemma StepKeepsLiteral(s: string, t: string, k: nat, d: string, t': string, p: nat, w: string, p0: nat)
    returns (p': nat)
    requires StartsAt(s, NUM_KEY, k) && k + |NUM_KEY| <= p
    requires forall i :: 0 <= i < p ==> !StartsAt(s, OPEN, i)
    requires |d| > 0 && AllDigits(d)
    requires t == s[..k] + (NUM_KEY + d) + t'
    requires StartsAt(t', w, p0) && forall i :: 0 <= i < p0 ==> !StartsAt(t', OPEN, i)
    ensures StartsAt(t, w, p') && forall i :: 0 <= i < p' ==> !StartsAt(t, OPEN, i)
  {
    p' := k + |NUM_KEY| + |d| + p0;
    NoOpenAcross(s, t, k, d, t', p, p0);
    BlockAfter(t, s[..k] + (NUM_KEY + d), t', w, p0);
  }

  lemma BlockAfter(t: string, front: string, t': string, w: string, p0: nat)
    requires t == front + t' && StartsAt(t', w, p0)
    ensures StartsAt(t, w, |front| + p0)
  {
    assert t[|front|..] == t';
    ShiftStartsAt(t, |front|, w, p0);
  }

  /** A NUM_CLASSES match left of the end of the written block ends, digits
      included, before the block starts. */
  lemma KeyBeforeLiteral(s: string, k: nat, p: nat, w: string)
    requires NumMatchAt(s, k) && k < p + |w|
    requires StartsAt(s, w, p) && |w| > 0 && KeyFree(w)
    requires w[0] !in NUM_KEY && !IsDigit(w[0]) && w[|w| - 1] !in NUM_KEY
    ensures k + |NUM_KEY| <= p && DigitsEnd(s, k + |NUM_KEY|) <= p
  {
    var start := k + |NUM_KEY|;
    CharAt(s, w, p, p);
    if p <= k {
      if start <= p + |w| {
        StartsInside(s, w, p, NUM_KEY, k);
      } else {
        CharAt(s, NUM_KEY, k, p + |w| - 1);
        CharAt(s, w, p, p + |w| - 1);
      }
    } else if p < start {
      CharAt(s, NUM_KEY, k, p);
    }
    var e := DigitsEnd(s, start);
    if p < e {
      DigitRun(s, start, e, p);
    }
  }

  /** Left of the block the rewritten rest keeps, neither the untouched
      prefix, nor the new key and digits, nor anything across them starts a
      literal. */
  lemma NoOpenAcross(s: string, t: string, k: nat, d: string, t': string, p: nat, p0: nat)
    requires StartsAt(s, NUM_KEY, k) && k + |NUM_KEY| <= p
    requires forall i :: 0 <= i < p ==> !StartsAt(s, OPEN, i)
    requires |d| > 0 && AllDigits(d)
    requires t == s[..k] + (NUM_KEY + d) + t'
    requires forall i :: 0 <= i < p0 ==> !StartsAt(t', OPEN, i)
    ensures forall i :: 0 <= i < k + |NUM_KEY| + |d| + p0 ==> !StartsAt(t, OPEN, i)
  {
    var start := k + |NUM_KEY|;
    var m := start + |d|;
    KeyThenValue(s[..k], NUM_KEY, d, t');
    assert t[..start] == s[..start] by {
      assert s[k..start] == NUM_KEY;
      PrefixSplit(s, k, start);
    }
    assert t[m..] == t';
    OpenNoDigits();
    forall i | 0 <= i < m + p0 ensures !StartsAt(t, OPEN, i) {
      if i + |OPEN| <= start {
        SamePrefixStartsAt(t, s, OPEN, i, start);
      } else if i < m {
        var j := if i < start then start else i;
        CharAt(t, OPEN, i, j);
        assert t[j] == t[start..m][j - start];
      } else {
        ShiftStartsAt(t, m, OPEN, i - m);
      }
    }
  }

  lemma OpenNoDigits()
    ensures forall i :: 0 <= i < |OPEN| ==> !IsDigit(OPEN[i])
  {
  }

  /** Inside an occurrence, each character is the pattern's. */
  lemma CharAt(s: string, pat: string, i: nat, j: nat)
    requires i <= j < i + |pat|
    ensures StartsAt(s, pat, i) ==> s[j] == pat[j - i]
  {
    if StartsAt(s, pat, i) {
      assert s[i..i + |pat|][j - i] == s[j];
    }
  }

  /** An occurrence lying inside an occurrence of `w` is one in `w`. */
  lemma StartsInside(s: string, w: string, p: nat, pat: string, k: nat)
    requires StartsAt(s, w, p) && p <= k && k + |pat| <= p + |w|
    ensures StartsAt(s, pat, k) ==> StartsAt(w, pat, k - p)
  {
    if StartsAt(s, pat, k) {
      forall j | 0 <= j < |pat| ensures w[k - p + j] == pat[j] {
        assert w[k - p + j] == s[p..p + |w|][k - p + j] == s[k + j];
        assert pat[j] == s[k..k + |pat|][j];
      }
      assert w[k - p..k - p + |pat|] == pat;
    }
  }

  lemma ShiftStartsAt(s: string, e: nat, pat: string, i: nat)
    requires e <= |s|
    ensures StartsAt(s[e..], pat, i) == StartsAt(s, pat, e + i)
  {
    if e + i + |pat| <= |s| {
      assert s[e..][i..i + |pat|] == s[e + i..e + i + |pat|];
    }
  }

  lemma DigitRun(s: string, start: nat, e: nat, j: nat)
    requires start <= j < e <= |s| && AllDigits(s[start..e])
    ensures IsDigit(s[j])
  {
    assert s[start..e][j - start] == s[j];
  }

  /** No `NUM_CLASSES = ` can sit across the joint of `a + b` when the
      character on one side of it is not in the key. */
  predicate Apart(a: string, b: string) {
    a == [] || b == [] || a[|a| - 1] !in NUM_KEY || b[0] !in NUM_KEY
  }

  lemma JoinKeyFree(a: string, b: string)
    requires KeyFree(a) && KeyFree(b) && Apart(a, b)
    ensures KeyFree(a + b)
  {
    var s := a + b;
    var n := |NUM_KEY|;
    forall i | 0 <= i < |s| ensures !StartsAt(s, NUM_KEY, i) {
      if i + n <= |a| {
        assert s[i..i + n] == a[i..i + n] && !StartsAt(a, NUM_KEY, i);
      } else if i >= |a| {
        if i + n <= |s| {
          assert s[i..i + n] == b[i - |a|..i - |a| + n] && !StartsAt(b, NUM_KEY, i - |a|);
        }
      } else if i + n <= |s| {
        CharAt(s, NUM_KEY, i, |a| - 1);
        CharAt(s, NUM_KEY, i, |a|);
        assert s[|a| - 1] == a[|a| - 1] && s[|a|] == b[0];
      }
    }
  }

  lemma ItemKeyFree(g: string)
    requires KeyFree(g)
    ensures KeyFree(Item(g))
  {
    assert '\'' !in NUM_KEY;
    JoinKeyFree("'", g);
    JoinKeyFree("'" + g, "'");
  }

  lemma QuotedListHead(gs: seq<string>)
    requires gs != []
    ensures QuotedList(gs) != [] && QuotedList(gs)[0] == '\''
  {
  }

  /** The written list holds `NUM_CLASSES = ` only where a name does. */
  lemma {:induction false} QuotedListKeyFree(gs: seq<string>)
    requires AllKeyFree(gs)
    ensures KeyFree(QuotedList(gs))
  {
    if |gs| == 1 {
      ItemKeyFree(gs[0]);
    } else if |gs| >= 2 {
      var rest := QuotedList(gs[1..]);
      ItemKeyFree(gs[0]);
      assert ',' !in NUM_KEY && '\'' !in NUM_KEY;
      JoinKeyFree(Item(gs[0]), ", ");
      QuotedListKeyFree(gs[1..]);
      QuotedListHead(gs[1..]);
      JoinKeyFree(Item(gs[0]) + ", ", rest);
    }
  }

  lemma WrittenKeyFree(gs: seq<string>)
    requires AllKeyFree(gs)
    ensures KeyFree(OPEN + QuotedList(gs) + "]")
  {
    var ql := QuotedList(gs);
    QuotedListKeyFree(gs);
    assert '[' !in NUM_KEY && ']' !in NUM_KEY;
    JoinKeyFree(OPEN, ql);
    JoinKeyFree(OPEN + ql, "]");
  }

  /** What one run of the manager does. */
  datatype Outcome = Rejected | Added(gestures: seq<string>, folder: string, files: Files)

  /** `main`: read the list, strip the typed name, and add it only when it is
      non-empty and new; then create its dataset folder and rewrite the files. */
  method AddNewGesture(train: string, convert: string, typed: string) returns (o: Outcome)
    ensures var name := Strip(typed, WHITESPACE);
      o.Added? <==> name != "" && name !in Parse(train)
    ensures o.Added? ==> var name := Strip(typed, WHITESPACE);
      o.gestures == Parse(train) + [name] && o.folder == "dataset/" + name
    ensures o.Added? && NoDuplicates(Parse(train)) ==> NoDuplicates(o.gestures)
    ensures o.Added? ==> o.files.labels == LabelMap(o.gestures)
    ensures o.Added? ==> o.files.train == SubNumClasses(SubGestures(train, o.gestures), |o.gestures|)
    ensures o.Added? && FindNum(SubGestures(train, o.gestures), 0) >= 0 ==>
      ReadNumClasses(o.files.train) == |o.gestures|
    ensures o.Added? && FindNum(SubGestures(train, o.gestures), 0) < 0 ==>
      o.files.train == SubGestures(train, o.gestures)
    ensures o.Added? && Clean(o.gestures) && AllKeyFree(o.gestures) && MatchGestures(train).Some? ==>
      Parse(o.files.train) == o.gestures
    ensures o.Added? ==> o.files.convert == SubGestures(convert, o.gestures)
    ensures o.Added? && Clean(o.gestures) && MatchGestures(convert).Some? ==>
      Parse(o.files.convert) == o.gestures
  {
    var current := Parse(train);
    var newG := Strip(typed, WHITESPACE);
    if newG != "" && newG !in current {
      var next := current + [newG];
      AppendFreshNoDuplicates(current, newG);
      var files := UpdateAllFiles(train, convert, next);
      o := Added(next, "dataset/" + newG, files);
    } else {
      o := Rejected;
    }
  }
}
