/**
 * parseline: the shell's command-line tokenizer. The line is split on runs
 * of spaces; a token that starts with a single quote runs to the next single
 * quote, both quotes dropped; a last token starting with '&' asks for a
 * background job and is removed.
 */
module Parse {
  import opened Wrappers
  import opened CStrings

  /**
   * parseline's private copy of the line: the final character (the newline
   * that fgets keeps) is overwritten with a space.
   */
  function Working(cmdline: string): string
    requires |cmdline| > 0
  {
    cmdline[..|cmdline| - 1] + " "
  }

  /**
   * The tokens parseline collects from the working copy w, reading from
   * index p on. Spaces are skipped; a quote opens a token that ends at the
   * next quote; any other character opens a token that ends at the next
   * space. A token with no closing delimiter ends the scan, and it is dropped
   * together with everything after it.
   */
  function Scan(w: string, p: nat): seq<string>
    requires p <= |w|
    decreases |w| - p
  {
    if p == |w| then []
    else if w[p] == ' ' then Scan(w, p + 1)
    else if w[p] == '\'' then
      match StrChr(w, p + 1, '\'')
      case None => []
      case Some(d) => [w[p + 1..d]] + Scan(w, d + 1)
    else
      match StrChr(w, p, ' ')
      case None => []
      case Some(d) => [w[p..d]] + Scan(w, d + 1)
  }

  /** parseline's test on the last token: its first character is '&'. */
  predicate IsBgMarker(t: string) {
    |t| > 0 && t[0] == '&'
  }

  /**
   * parseline's ending: no tokens is a blank line and returns true; otherwise
   * a last token starting with '&' is removed and true is returned.
   */
  function Background(toks: seq<string>): (seq<string>, bool) {
    if toks == [] then ([], true)
    else if IsBgMarker(toks[|toks| - 1]) then (toks[..|toks| - 1], true)
    else (toks, false)
  }

  /**
   * The background flag is true exactly for a blank line or a last token
   * starting with '&', and only that token is removed from the list.
   */
  lemma BackgroundSplit(toks: seq<string>)
    ensures Background(toks).1 <==> toks == [] || IsBgMarker(toks[|toks| - 1])
    ensures toks != [] && Background(toks).1 ==>
              Background(toks).0 + [toks[|toks| - 1]] == toks
    ensures !Background(toks).1 ==> Background(toks).0 == toks
  {
    if toks != [] && IsBgMarker(toks[|toks| - 1]) {
      assert toks[..|toks| - 1] + [toks[|toks| - 1]] == toks;
    }
  }

  /** What parseline computes: the argv list and its return value. */
  function Parsed(cmdline: string): (seq<string>, bool)
    requires |cmdline| > 0
  {
    Background(Scan(Working(cmdline), 0))
  }

  /**
   * The space-skipping loop: advance over spaces from `from`, stopping at
   * the first character that is not a space (or at the end).
   */
  method SkipSpaces(w: string, from: nat) returns (p: nat)
    requires from <= |w|
    ensures from <= p <= |w| && (p == |w| || w[p] != ' ')
    ensures forall i :: from <= i < p ==> w[i] == ' '
    ensures Scan(w, p) == Scan(w, from)
  {
    p := from;
    while p < |w| && w[p] == ' '
      invariant from <= p <= |w|
      invariant forall i :: from <= i < p ==> w[i] == ' '
      invariant Scan(w, p) == Scan(w, from)
    {
      p := p + 1;
    }
  }

  /**
   * The delimiter search at a token start: after a quote, strchr for the
   * closing quote; otherwise strchr for a space. Returns the token's first
   * character and the delimiter's index, None standing for a NULL strchr.
   */
  method NextDelim(w: string, start: nat) returns (buf: nat, delim: Option<nat>)
    requires start <= |w| && (start == |w| || w[start] != ' ')
    ensures start <= buf <= |w|
    ensures delim.None? ==> Scan(w, start) == []
    ensures delim.Some? ==> buf <= delim.value < |w|
    ensures delim.Some? ==> Scan(w, start) == [w[buf..delim.value]] + Scan(w, delim.value + 1)
  {
    if start < |w| && w[start] == '\'' {
      buf := start + 1;
      delim := StrChr(w, buf, '\'');
    } else {
      buf := start;
      delim := StrChr(w, buf, ' ');
    }
  }

  /**
   * What parseline does before its loop and at the end of each round: skip
   * the spaces from `from` on, then search for the next token's delimiter.
   */
  method NextToken(w: string, from: nat) returns (buf: nat, delim: Option<nat>)
    requires from <= |w|
    ensures from <= buf <= |w|
    ensures delim.None? ==> Scan(w, from) == []
    ensures delim.Some? ==> buf <= delim.value < |w|
    ensures delim.Some? ==> Scan(w, from) == [w[buf..delim.value]] + Scan(w, delim.value + 1)
  {
    var start := SkipSpaces(w, from);
    buf, delim := NextDelim(w, start);
  }

  /** parseline's main loop over the working copy w: one token per delimiter found. */
  method Tokenize(w: string) returns (argv: seq<string>)
    ensures argv == Scan(w, 0)
  {
    var pos := 0;
    var buf, delim := NextToken(w, pos);
    argv := [];
    Unit(Scan(w, 0));
    while delim.Some?
      invariant pos <= buf <= |w|
      invariant argv + Scan(w, pos) == Scan(w, 0)
      invariant delim.None? ==> Scan(w, pos) == []
      invariant delim.Some? ==> buf <= delim.value < |w|
      invariant delim.Some? ==> Scan(w, pos) == [w[buf..delim.value]] + Scan(w, delim.value + 1)
      decreases |w| - pos
    {
      var token := w[buf..delim.value];
      var prev := pos;
      pos := delim.value + 1;
      Shift(argv, token, Scan(w, prev), Scan(w, pos), Scan(w, 0));
      argv := argv + [token];
      buf, delim := NextToken(w, pos);
    }
  }

  /** Nothing collected yet: the pending part is everything. */
  lemma Unit<T>(all: seq<T>)
    ensures [] + all == all
  {
  }

  /** Moving the next item x from the pending part s of all to the collected part done. */
  lemma Shift<T>(done: seq<T>, x: T, s: seq<T>, rest: seq<T>, all: seq<T>)
    requires done + s == all && s == [x] + rest
    ensures (done + [x]) + rest == all
  {
    assert done + ([x] + rest) == (done + [x]) + rest;
  }

  /**
   * parseline: copy the line with its newline replaced by a space, collect
   * the tokens, then settle the background flag.
   */
  method ParseLine(cmdline: string) returns (argv: seq<string>, bg: bool)
    requires |cmdline| > 0
    ensures (argv, bg) == Parsed(cmdline)
  {
    var w := cmdline[..|cmdline| - 1] + " ";
    argv := Tokenize(w);
    if |argv| == 0 {
      bg := true;
      return;
    }
    bg := IsBgMarker(argv[|argv| - 1]);
    if bg {
      argv := argv[..|argv| - 1];
    }
  }

  // ---------------------------------------------------------------------
  // What the tokens look like, and a renderer that parseline inverts.

  /** No character of t is c. */
  predicate Lacks(t: string, c: char) {
    t == [] || (t[0] != c && Lacks(t[1..], c))
  }

  /** Lacks, stated index by index. */
  lemma {:induction false} LacksAt(t: string, c: char)
    ensures Lacks(t, c) <==> forall i :: 0 <= i < |t| ==> t[i] != c
  {
    if t != [] {
      LacksAt(t[1..], c);
      assert forall i :: 1 <= i < |t| ==> t[i] == t[1..][i - 1];
    }
  }

  /** A token that parseline can read without quotes. */
  predicate Bare(t: string) {
    |t| > 0 && t[0] != '\'' && Lacks(t, ' ')
  }

  /**
   * A token parseline can produce: an unquoted word (non-empty, no space, not
   * opening with a quote) or the inside of a quoted one (no quote).
   */
  predicate Renderable(t: string) {
    Bare(t) || Lacks(t, '\'')
  }

  /** Every token of the list is Renderable. */
  predicate AllRenderable(toks: seq<string>) {
    toks == [] || (Renderable(toks[0]) && AllRenderable(toks[1..]))
  }

  /** AllRenderable, stated token by token. */
  lemma {:induction false} AllRenderableAt(toks: seq<string>)
    ensures AllRenderable(toks) <==> forall i :: 0 <= i < |toks| ==> Renderable(toks[i])
  {
    if toks != [] {
      AllRenderableAt(toks[1..]);
      assert forall i :: 1 <= i < |toks| ==> toks[i] == toks[1..][i - 1];
    }
  }

  /** Writes a token so that parseline reads it back: bare if it can be, else quoted. */
  function Quote(t: string): string {
    if Bare(t) then t else "'" + t + "'"
  }

  /** Writes a token list as a line body, each token followed by one space. */
  function Render(toks: seq<string>): string {
    if toks == [] then "" else Quote(toks[0]) + " " + Render(toks[1..])
  }

  /** A word read up to the next space, not opening with a quote, is bare. */
  lemma WordBare(w: string, p: nat, d: nat)
    requires p < d <= |w| && w[p] != '\''
    requires forall j :: p <= j < d ==> w[j] != ' '
    ensures Bare(w[p..d])
  {
    var t := w[p..d];
    assert t[0] == w[p];
    assert forall i :: 0 <= i < |t| ==> t[i] == w[p + i];
    LacksAt(t, ' ');
  }

  /** The inside of a quoted token, read up to the next quote, holds no quote. */
  lemma InsideQuoteFree(w: string, p: nat, d: nat)
    requires p <= d <= |w|
    requires forall j :: p <= j < d ==> w[j] != '\''
    ensures Lacks(w[p..d], '\'')
  {
    var t := w[p..d];
    assert forall i :: 0 <= i < |t| ==> t[i] == w[p + i];
    LacksAt(t, '\'');
  }

  /** A renderable token in front of a renderable list. */
  lemma ConsRenderable(t: string, rest: seq<string>)
    requires Renderable(t) && AllRenderable(rest)
    ensures AllRenderable([t] + rest)
  {
    assert ([t] + rest)[1..] == rest;
  }

  /** Every token parseline produces is a bare word or a quote-free quoted one. */
  lemma {:induction false} ScanRenderable(w: string, p: nat)
    requires p <= |w|
    ensures AllRenderable(Scan(w, p))
    decreases |w| - p
  {
    if p == |w| {
    } else if w[p] == ' ' {
      ScanRenderable(w, p + 1);
    } else if w[p] == '\'' {
      match StrChr(w, p + 1, '\'')
      case None =>
      case Some(d) =>
        InsideQuoteFree(w, p + 1, d);
        ScanRenderable(w, d + 1);
        ConsRenderable(w[p + 1..d], Scan(w, d + 1));
    } else {
      match StrChr(w, p, ' ')
      case None =>
      case Some(d) =>
        assert d > p;
        WordBare(w, p, d);
        ScanRenderable(w, d + 1);
        ConsRenderable(w[p..d], Scan(w, d + 1));
    }
  }

  /** Each token uses up at least two characters of the line. */
  lemma {:induction false} ScanCount(w: string, p: nat)
    requires p <= |w|
    ensures 2 * |Scan(w, p)| <= |w| - p
    decreases |w| - p
  {
    if p == |w| {
    } else if w[p] == ' ' {
      ScanCount(w, p + 1);
    } else if w[p] == '\'' {
      match StrChr(w, p + 1, '\'')
      case None =>
      case Some(d) => ScanCount(w, d + 1);
    } else {
      match StrChr(w, p, ' ')
      case None =>
      case Some(d) =>
        assert d > p;
        ScanCount(w, d + 1);
    }
  }

  /** A run of spaces holds no token. */
  lemma {:induction false} ScanSpaces(w: string, p: nat)
    requires p <= |w|
    requires forall i :: p <= i < |w| ==> w[i] == ' '
    ensures Scan(w, p) == []
    decreases |w| - p
  {
    if p < |w| {
      ScanSpaces(w, p + 1);
    }
  }

  /** w holds h from index q on. */
  predicate At(w: string, q: nat, h: string)
    decreases |h|
  {
    if h == [] then q <= |w| else q < |w| && w[q] == h[0] && At(w, q + 1, h[1..])
  }

  /** At, stated index by index. */
  lemma {:induction false} AtIndex(w: string, q: nat, h: string)
    ensures At(w, q, h) <==> q + |h| <= |w| && forall j :: 0 <= j < |h| ==> w[q + j] == h[j]
    decreases |h|
  {
    if h != [] {
      AtIndex(w, q + 1, h[1..]);
      assert forall j :: 1 <= j < |h| ==> h[j] == h[1..][j - 1];
    }
  }

  /** Where a bare word t lies in w from index q: its characters, none a space. */
  lemma BareAt(w: string, q: nat, t: string)
    requires Bare(t) && At(w, q, t)
    ensures q + |t| <= |w| && w[q] == t[0] && w[q..q + |t|] == t
    ensures forall j :: q <= j < q + |t| ==> w[j] != ' '
  {
    AtIndex(w, q, t);
    LacksAt(t, ' ');
    assert forall j :: q <= j < q + |t| ==> w[j] == t[j - q] != ' ';
    assert w[q..q + |t|] == t;
  }

  /** Scanning a bare word followed by a space, found at index q of w. */
  lemma ScanBareToken(w: string, q: nat, t: string)
    requires Bare(t)
    requires At(w, q, t) && q + |t| < |w| && w[q + |t|] == ' '
    ensures Scan(w, q) == [t] + Scan(w, q + |t| + 1)
  {
    BareAt(w, q, t);
    StrChrAt(w, q, ' ', q + |t|);
  }

  /** Where a quoted token lies in w from index q: two quotes around t, which holds none. */
  lemma QuotedAt(w: string, q: nat, t: string)
    requires Lacks(t, '\'') && At(w, q, "'" + t + "'")
    ensures q + |t| + 2 <= |w| && w[q] == '\'' && w[q + |t| + 1] == '\''
    ensures w[q + 1..q + |t| + 1] == t
    ensures forall j :: q + 1 <= j < q + |t| + 1 ==> w[j] != '\''
  {
    var e := q + |t| + 1;
    var h := "'" + t + "'";
    AtIndex(w, q, h);
    LacksAt(t, '\'');
    assert forall j :: q + 1 <= j < e ==> w[j] == h[j - q] == t[j - q - 1] != '\'';
    assert w[q] == h[0] == '\'';
    assert w[e] == h[|t| + 1] == '\'';
    assert w[q + 1..e] == t;
  }

  /** Scanning a quoted token followed by a space, found at index q of w. */
  lemma ScanQuotedToken(w: string, q: nat, t: string)
    requires Lacks(t, '\'')
    requires At(w, q, "'" + t + "'") && q + |t| + 2 < |w| && w[q + |t| + 2] == ' '
    ensures Scan(w, q) == [t] + Scan(w, q + |t| + 3)
  {
    QuotedAt(w, q, t);
    StrChrAt(w, q + 1, '\'', q + |t| + 1);
  }

  /** Scanning one written token followed by a space, found at index q of w. */
  lemma ScanToken(w: string, q: nat, t: string, m: nat)
    requires Renderable(t) && m == q + |Quote(t)| + 1
    requires At(w, q, Quote(t)) && m <= |w| && w[m - 1] == ' '
    ensures Scan(w, q) == [t] + Scan(w, m)
  {
    if Bare(t) {
      ScanBareToken(w, q, t);
    } else {
      ScanQuotedToken(w, q, t);
    }
  }

  /**
   * w holds the written form of toks from index q on: each token as Quote
   * writes it, followed by one space.
   */
  predicate RendersAt(w: string, q: nat, toks: seq<string>)
    decreases |toks|
  {
    toks == [] ||
    (var h := Quote(toks[0]);
     At(w, q, h) && q + |h| < |w| && w[q + |h|] == ' ' &&
     RendersAt(w, q + |h| + 1, toks[1..]))
  }

  /** Where the parts of p + (h + " " + rest) + x lie. */
  lemma Split(p: string, h: string, rest: string, x: string)
    ensures p + (h + " " + rest) + x == (p + h + " ") + rest + x
    ensures At(p + (h + " " + rest) + x, |p|, h)
    ensures (p + (h + " " + rest) + x)[|p| + |h|] == ' '
  {
    var w := p + (h + " " + rest) + x;
    assert w == p + h + (" " + rest + x);
    AtIndex(w, |p|, h);
  }

  /** Render(toks), placed after p, is what RendersAt describes at index |p|. */
  lemma {:induction false} RenderedAt(p: string, toks: seq<string>, x: string)
    ensures RendersAt(p + Render(toks) + x, |p|, toks)
    decreases |toks|
  {
    if toks != [] {
      var h := Quote(toks[0]);
      var rest := Render(toks[1..]);
      assert Render(toks) == h + " " + rest;
      Split(p, h, rest, x);
      RenderedAt(p + h + " ", toks[1..], x);
    }
  }

  /** Putting a list's head back in front of its tail. */
  lemma Unshift<T>(xs: seq<T>, all: seq<T>, s: seq<T>, rest: seq<T>)
    requires xs != [] && all == [xs[0]] + s && s == xs[1..] + rest
    ensures all == xs + rest
  {
    assert xs == [xs[0]] + xs[1..];
  }

  /** The length of a written list: its head, one space, then the rest. */
  lemma RenderCons(toks: seq<string>)
    requires toks != []
    ensures |Render(toks)| == |Quote(toks[0])| + 1 + |Render(toks[1..])|
  {
  }

  /** The head and the tail of a renderable list are renderable. */
  lemma AllRenderableCons(toks: seq<string>)
    requires toks != [] && AllRenderable(toks)
    ensures Renderable(toks[0]) && AllRenderable(toks[1..])
  {
  }

  /** The first written token of a RendersAt, and where the others start. */
  lemma RendersHead(w: string, q: nat, toks: seq<string>) returns (m: nat)
    requires toks != [] && RendersAt(w, q, toks)
    ensures m == q + |Quote(toks[0])| + 1 <= |w|
    ensures At(w, q, Quote(toks[0])) && w[m - 1] == ' '
    ensures RendersAt(w, m, toks[1..])
  {
    m := q + |Quote(toks[0])| + 1;
  }

  /**
   * parseline reads back exactly the tokens a line was written from: when w
   * holds the written tokens at index q, scanning from q yields toks and
   * then whatever follows the written text.
   */
  lemma {:induction false} ScanRender(w: string, q: nat, toks: seq<string>) returns (e: nat)
    requires q <= |w| && AllRenderable(toks) && RendersAt(w, q, toks)
    ensures e == q + |Render(toks)| <= |w|
    ensures Scan(w, q) == toks + Scan(w, e)
    decreases |toks|
  {
    if toks == [] {
      e := q;
    } else {
      var m := RendersHead(w, q, toks);
      RenderCons(toks);
      AllRenderableCons(toks);
      ScanToken(w, q, toks[0], m);
      e := ScanRender(w, m, toks[1..]);
      Unshift(toks, Scan(w, q), Scan(w, m), Scan(w, e));
    }
  }

  /** Scanning a written token list from the start of a line, whatever follows it. */
  lemma ScanLine(toks: seq<string>, x: string)
    requires AllRenderable(toks)
    ensures Scan(Render(toks) + x, 0) == toks + Scan(Render(toks) + x, |Render(toks)|)
  {
    RenderedAt([], toks, x);
    Unit(Render(toks));
    var e := ScanRender(Render(toks) + x, 0, toks);
  }

  /** From an opening quote with no closing one, nothing more is read. */
  lemma ScanUnclosed(w: string, p: nat)
    requires p < |w| && w[p] == '\''
    requires forall j :: p < j < |w| ==> w[j] != '\''
    ensures Scan(w, p) == []
  {
    assert StrChr(w, p + 1, '\'') == None;
  }

  /** In r + "'" + tail, with no quote in tail, the quote after r is the last one. */
  lemma QuoteTail(r: string, tail: string)
    requires Lacks(tail, '\'')
    ensures |r| < |r + ("'" + tail)| && (r + ("'" + tail))[|r|] == '\''
    ensures forall j :: |r| < j < |r + ("'" + tail)| ==> (r + ("'" + tail))[j] != '\''
  {
    var q := "'" + tail;
    var w := r + q;
    assert w[|r|] == q[0];
    LacksAt(tail, '\'');
    forall j | |r| < j < |w|
      ensures w[j] != '\''
    {
      assert w[j] == q[j - |r|] == tail[j - |r| - 1];
    }
  }

  /** An opening quote with no closing one drops itself and everything after it. */
  lemma UnclosedQuote(toks: seq<string>, tail: string)
    requires forall i :: 0 <= i < |toks| ==> Renderable(toks[i])
    requires Lacks(tail, '\'')
    ensures Scan(Render(toks) + ("'" + tail), 0) == toks
  {
    AllRenderableAt(toks);
    ScanLine(toks, "'" + tail);
    QuoteTail(Render(toks), tail);
    ScanUnclosed(Render(toks) + ("'" + tail), |Render(toks)|);
  }

  /** A line of spaces (before its newline) is blank: no arguments, and true is returned. */
  lemma BlankLine(cmdline: string)
    requires |cmdline| > 0
    requires forall i :: 0 <= i < |cmdline| - 1 ==> cmdline[i] == ' '
    ensures Parsed(cmdline) == ([], true)
  {
    ScanSpaces(Working(cmdline), 0);
  }

  /** The working copy of a line r + "\n" is r with the newline made a space. */
  lemma WorkingLine(r: string)
    ensures Working(r + "\n") == r + " " && Scan(r + " ", |r|) == []
  {
    assert (r + "\n")[..|r|] == r;
    ScanSpaces(r + " ", |r|);
  }

  /** The token list written for a line, with "&" appended for a background job. */
  function Line(toks: seq<string>, bg: bool): seq<string> {
    toks + (if bg then ["&"] else [])
  }

  /** Line keeps every token Renderable. */
  lemma LineRenderable(toks: seq<string>, bg: bool)
    requires forall i :: 0 <= i < |toks| ==> Renderable(toks[i])
    ensures AllRenderable(Line(toks, bg))
  {
    var all := Line(toks, bg);
    assert Renderable("&") by { assert "&"[1..] == ""; }
    assert forall i :: 0 <= i < |all| ==> Renderable(all[i]);
    AllRenderableAt(all);
  }

  /**
   * Writing tokens out (with a trailing "&" for a background job) and reading
   * the line back gives the same tokens and the same background flag. A
   * foreground line needs a last token that does not itself start with '&'.
   */
  lemma ParseRender(toks: seq<string>, bg: bool)
    requires forall i :: 0 <= i < |toks| ==> Renderable(toks[i])
    requires !bg ==> toks != [] && !IsBgMarker(toks[|toks| - 1])
    ensures Parsed(Render(Line(toks, bg)) + "\n") == (toks, bg)
  {
    var all := Line(toks, bg);
    LineRenderable(toks, bg);
    var r := Render(all);
    WorkingLine(r);
    ScanLine(all, " ");
    assert Scan(Working(r + "\n"), 0) == all;
    if bg {
      assert all[|all| - 1] == "&" && IsBgMarker("&");
      assert all[..|all| - 1] == toks;
    } else {
      assert all == toks;
    }
  }
}
