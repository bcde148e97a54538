/** The desktop-entry `Exec` tokenizer and the argument vector built from it. */
module Tokenizer {

  // ---- the scanner ------------------------------------------------------

  datatype State = State(out: seq<string>, cur: string, inQuote: bool, started: bool)

  const Fresh := State([], "", false, false)

  function Emitted(st: State): seq<string> {
    if st.started || st.cur != "" then st.out + [st.cur] else st.out
  }

  function Scan(s: string, st: State): State
    decreases |s|
  {
    if s == "" then st
    else if s[0] == '"' then Scan(s[1..], st.(inQuote := !st.inQuote, started := true))
    else if s[0] == '\\' && st.inQuote then
      if |s| == 1 then st else Scan(s[2..], st.(cur := st.cur + [s[1]]))
    else if (s[0] == ' ' || s[0] == '\t') && !st.inQuote then Scan(s[1..], State(Emitted(st), "", false, false))
    else Scan(s[1..], st.(cur := st.cur + [s[0]], started := true))
  }

  function Tokens(s: string): seq<string> { Emitted(Scan(s, Fresh)) }

  /** `tokenize_exec`. */
  method Tokenize(s: string) returns (out: seq<string>)
    ensures out == Tokens(s)
  {
    out := [];
    var cur, inQuote, started, i := "", false, false, 0;
    while i < |s|
      invariant 0 <= i <= |s|
      invariant Scan(s[i..], State(out, cur, inQuote, started)) == Scan(s, Fresh)
    {
      assert s[i..][0] == s[i] && s[i..][1..] == s[i + 1..];
      var c := s[i];
      i := i + 1;
      if c == '"' {
        inQuote, started := !inQuote, true;
      } else if c == '\\' && inQuote {
        if i < |s| {
          assert s[i - 1..][1] == s[i] && s[i - 1..][2..] == s[i + 1..];
          cur := cur + [s[i]];
          i := i + 1;
        }
      } else if (c == ' ' || c == '\t') && !inQuote {
        if started || cur != "" { out := out + [cur]; }
        cur, started := "", false;
      } else {
        cur, started := cur + [c], true;
      }
    }
    if started || cur != "" { out := out + [cur]; }
  }

  // ---- lines as people write them ---------------------------------------

  /** A character inside quotes, with a backslash before it or not. */
  datatype Glyph = Glyph(c: char, escaped: bool)

  /** A stretch of an argument: one bare character, or something in quotes. */
  datatype Segment = Bare(c: char) | Quoted(glyphs: seq<Glyph>)

  /** Quotes and backslashes inside quotes need the backslash; bare characters are not special. */
  predicate Proper(g: Glyph) { g.c == '"' || g.c == '\\' ==> g.escaped }

  predicate ProperSegment(x: Segment) {
    match x
    case Bare(c) => c != '"' && c != ' ' && c != '\t'
    case Quoted(gs) => forall i :: 0 <= i < |gs| ==> Proper(gs[i])
  }

  /** An argument is written with at least one segment, or it could not be seen. */
  predicate ProperWord(w: seq<Segment>) { w != [] && forall i :: 0 <= i < |w| ==> ProperSegment(w[i]) }

  predicate Blank(s: string) { forall i :: 0 <= i < |s| ==> s[i] == ' ' || s[i] == '\t' }

  function GlyphText(g: Glyph): string { if g.escaped then ['\\', g.c] else [g.c] }

  function GlyphsText(gs: seq<Glyph>): string { if gs == [] then "" else GlyphText(gs[0]) + GlyphsText(gs[1..]) }

  function GlyphsMean(gs: seq<Glyph>): string { if gs == [] then "" else [gs[0].c] + GlyphsMean(gs[1..]) }

  function SegmentText(x: Segment): string {
    match x
    case Bare(c) => [c]
    case Quoted(gs) => "\"" + GlyphsText(gs) + "\""
  }

  function SegmentMeans(x: Segment): string { match x case Bare(c) => [c] case Quoted(gs) => GlyphsMean(gs) }

  function WordText(w: seq<Segment>): string { if w == [] then "" else SegmentText(w[0]) + WordText(w[1..]) }
  function WordMeans(w: seq<Segment>): string { if w == [] then "" else SegmentMeans(w[0]) + WordMeans(w[1..]) }

  /** A word and the white space after it. */
  datatype Item = Item(word: seq<Segment>, gap: string)

  function LineText(items: seq<Item>): string {
    if items == [] then "" else WordText(items[0].word) + items[0].gap + LineText(items[1..])
  }

  function LineMeans(items: seq<Item>): seq<string> {
    if items == [] then [] else [WordMeans(items[0].word)] + LineMeans(items[1..])
  }

  /** Words are kept apart; after the last, white space is optional. */
  predicate ProperLine(items: seq<Item>) {
    forall i :: 0 <= i < |items| ==>
      ProperWord(items[i].word) && Blank(items[i].gap) && (i < |items| - 1 ==> items[i].gap != "")
  }

  // ---- scanning them ----------------------------------------------------

  lemma Assoc<T>(a: seq<T>, b: seq<T>, c: seq<T>)
    ensures a + b + c == a + (b + c)
  {
  }

  lemma ScanGlyph(g: Glyph, rest: string, st: State)
    requires st.inQuote && st.started && Proper(g)
    ensures Scan(GlyphText(g) + rest, st) == Scan(rest, st.(cur := st.cur + [g.c]))
  {
    var s := GlyphText(g) + rest;
    if g.escaped {
      assert s[0] == '\\' && s[1] == g.c && s[2..] == rest;
    } else {
      assert s[0] == g.c && s[1..] == rest;
    }
  }

  lemma {:induction false} ScanGlyphs(gs: seq<Glyph>, rest: string, st: State)
    requires st.inQuote && st.started && forall i :: 0 <= i < |gs| ==> Proper(gs[i])
    ensures Scan(GlyphsText(gs) + rest, st) == Scan(rest, st.(cur := st.cur + GlyphsMean(gs)))
    decreases |gs|
  {
    if gs == [] {
      assert GlyphsText(gs) + rest == rest && st.cur + "" == st.cur;
    } else {
      Assoc(GlyphText(gs[0]), GlyphsText(gs[1..]), rest);
      ScanGlyph(gs[0], GlyphsText(gs[1..]) + rest, st);
      ScanGlyphs(gs[1..], rest, st.(cur := st.cur + [gs[0].c]));
      Assoc(st.cur, [gs[0].c], GlyphsMean(gs[1..]));
    }
  }

  lemma ScanSegment(x: Segment, rest: string, st: State)
    requires ProperSegment(x) && !st.inQuote
    ensures Scan(SegmentText(x) + rest, st) == Scan(rest, st.(cur := st.cur + SegmentMeans(x), started := true))
  {
    var s := SegmentText(x) + rest;
    match x
    case Bare(c) =>
      assert s[0] == c && s[1..] == rest;
    case Quoted(gs) =>
      var inside := GlyphsText(gs) + ("\"" + rest);
      assert s[0] == '"' && s[1..] == inside;
      var st' := st.(inQuote := true, started := true);
      ScanGlyphs(gs, "\"" + rest, st');
      assert ("\"" + rest)[0] == '"' && ("\"" + rest)[1..] == rest;
  }

  lemma {:induction false} ScanSegments(w: seq<Segment>, rest: string, st: State)
    requires (forall i :: 0 <= i < |w| ==> ProperSegment(w[i])) && !st.inQuote && st.started
    ensures Scan(WordText(w) + rest, st) == Scan(rest, st.(cur := st.cur + WordMeans(w)))
    decreases |w|
  {
    if w == [] {
      assert WordText(w) + rest == rest && st.cur + "" == st.cur;
    } else {
      Assoc(SegmentText(w[0]), WordText(w[1..]), rest);
      ScanSegment(w[0], WordText(w[1..]) + rest, st);
      ScanSegments(w[1..], rest, st.(cur := st.cur + SegmentMeans(w[0])));
      Assoc(st.cur, SegmentMeans(w[0]), WordMeans(w[1..]));
    }
  }

  lemma ScanFirst(x: Segment, rest: string, out: seq<string>)
    requires ProperSegment(x)
    ensures Scan(SegmentText(x) + rest, State(out, "", false, false)) == Scan(rest, State(out, SegmentMeans(x), false, true))
  {
    ScanSegment(x, rest, State(out, "", false, false));
    assert "" + SegmentMeans(x) == SegmentMeans(x);
  }

  /** A word fills the current argument. */
  lemma ScanWord(w: seq<Segment>, rest: string, out: seq<string>)
    requires ProperWord(w)
    ensures Scan(WordText(w) + rest, State(out, "", false, false)) == Scan(rest, State(out, WordMeans(w), false, true))
  {
    Assoc(SegmentText(w[0]), WordText(w[1..]), rest);
    ScanFirst(w[0], WordText(w[1..]) + rest, out);
    ScanSegments(w[1..], rest, State(out, SegmentMeans(w[0]), false, true));
  }

  /** White space ends it, and more white space does nothing. */
  lemma {:induction false} ScanBlank(gap: string, rest: string, st: State)
    requires Blank(gap) && gap != "" && !st.inQuote
    ensures Scan(gap + rest, st) == Scan(rest, State(Emitted(st), "", false, false))
    decreases |gap|
  {
    assert (gap + rest)[0] == gap[0] && (gap + rest)[1..] == gap[1..] + rest;
    if |gap| > 1 {
      ScanBlank(gap[1..], rest, State(Emitted(st), "", false, false));
    } else {
      assert gap[1..] + rest == rest;
    }
  }

  lemma LastWord(items: seq<Item>)
    requires ProperLine(items) && items != [] && items[0].gap == ""
    ensures items[1..] == [] && LineText(items[1..]) == "" && LineMeans(items) == [WordMeans(items[0].word)]
  {
    assert |items| == 1;
  }

  lemma {:induction false} ScanLine(items: seq<Item>, out: seq<string>)
    requires ProperLine(items)
    ensures Emitted(Scan(LineText(items), State(out, "", false, false))) == out + LineMeans(items)
    decreases |items|
  {
    if items == [] {
      assert out + [] == out;
    } else {
      var w, gap, rest := items[0].word, items[0].gap, LineText(items[1..]);
      Assoc(WordText(w), gap, rest);
      ScanWord(w, gap + rest, out);
      if gap == "" {
        LastWord(items);
        assert gap + rest == "";
      } else {
        ScanBlank(gap, rest, State(out, WordMeans(w), false, true));
        ScanLine(items[1..], out + [WordMeans(w)]);
        Assoc(out, [WordMeans(w)], LineMeans(items[1..]));
      }
    }
  }

  /** Any line of words, each bare, quoted, escaped or mixed as its writer likes, with any white
      space before, between and after, is read as what the words mean. */
  lemma LineRoundTrip(indent: string, items: seq<Item>)
    requires Blank(indent) && ProperLine(items)
    ensures Tokens(indent + LineText(items)) == LineMeans(items)
  {
    LineTokens(items);
    if indent == "" {
      assert indent + LineText(items) == LineText(items);
    } else {
      ScanBlank(indent, LineText(items), Fresh);
    }
  }

  lemma LineTokens(items: seq<Item>)
    requires ProperLine(items)
    ensures Tokens(LineText(items)) == LineMeans(items)
  {
    ScanLine(items, []);
    assert [] + LineMeans(items) == LineMeans(items);
  }

  // ---- the canonical print ----------------------------------------------

  function Escape(arg: string): (gs: seq<Glyph>)
    ensures |gs| == |arg| && forall i :: 0 <= i < |gs| ==> Proper(gs[i])
  {
    seq(|arg|, i requires 0 <= i < |arg| => Glyph(arg[i], arg[i] == '"' || arg[i] == '\\'))
  }

  /** Every argument in quotes, escaped, with a space behind it. */
  function Print(args: seq<string>): string {
    if args == [] then "" else "\"" + GlyphsText(Escape(args[0])) + "\" " + Print(args[1..])
  }

  function PrintItems(args: seq<string>): (items: seq<Item>)
    ensures |items| == |args|
    ensures forall i :: 0 <= i < |args| ==> items[i] == Item([Quoted(Escape(args[i]))], " ")
  {
    seq(|args|, i requires 0 <= i < |args| => Item([Quoted(Escape(args[i]))], " "))
  }

  lemma {:induction false} EscapeMeans(arg: string)
    ensures GlyphsMean(Escape(arg)) == arg
    decreases |arg|
  {
    if arg != "" {
      assert Escape(arg)[1..] == Escape(arg[1..]);
      EscapeMeans(arg[1..]);
      assert arg == [arg[0]] + arg[1..];
    }
  }

  lemma {:induction false} PrintIsLine(args: seq<string>)
    ensures LineText(PrintItems(args)) == Print(args) && LineMeans(PrintItems(args)) == args
    decreases |args|
  {
    if args != [] {
      PrintIsLine(args[1..]);
      PrintOne(args[0], PrintItems(args[1..]));
      assert PrintItems(args) == [Item([Quoted(Escape(args[0]))], " ")] + PrintItems(args[1..]);
      assert args == [args[0]] + args[1..];
    }
  }

  lemma PrintOne(arg: string, items: seq<Item>)
    ensures var all := [Item([Quoted(Escape(arg))], " ")] + items;
      && LineText(all) == "\"" + GlyphsText(Escape(arg)) + "\" " + LineText(items)
      && LineMeans(all) == [arg] + LineMeans(items)
  {
    var item := Item([Quoted(Escape(arg))], " ");
    assert ([item] + items)[0] == item && ([item] + items)[1..] == items;
    EscapeMeans(arg);
    QuotedWord(Escape(arg));
    assert "\"" + GlyphsText(Escape(arg)) + "\"" + " " == "\"" + GlyphsText(Escape(arg)) + "\" ";
  }

  lemma QuotedWord(gs: seq<Glyph>)
    ensures WordText([Quoted(gs)]) == "\"" + GlyphsText(gs) + "\"" && WordMeans([Quoted(gs)]) == GlyphsMean(gs)
  {
    var w := [Quoted(gs)];
    assert w[1..] == [];
    assert SegmentText(w[0]) + "" == SegmentText(w[0]);
  }

  /** Tokenizing the print of any argument list gives the list back, empty arguments included. */
  lemma PrintRoundTrip(args: seq<string>)
    ensures Tokens(Print(args)) == args
  {
    PrintIsLine(args);
    PrintIsProper(args);
    LineTokens(PrintItems(args));
  }

  lemma PrintIsProper(args: seq<string>)
    ensures ProperLine(PrintItems(args))
  {
  }

  // ---- the argument vector ----------------------------------------------

  predicate FileCode(t: string) { t == "%f" || t == "%F" || t == "%u" || t == "%U" }

  predicate Dropped(t: string) {
    t == "%i" || t == "%c" || t == "%k" || t == "%d" || t == "%D" || t == "%n" || t == "%N" || t == "%v" || t == "%m"
  }

  /** "%%" stands for "%". */
  function Unpercent(t: string): string {
    if |t| < 2 then t
    else if t[0] == '%' && t[1] == '%' then "%" + Unpercent(t[2..])
    else [t[0]] + Unpercent(t[1..])
  }

  function Expand(ts: seq<string>, path: string): seq<string> {
    if ts == [] then [] else ExpandOne(ts[0], path) + Expand(ts[1..], path)
  }

  predicate HasFile(ts: seq<string>) { exists i :: 0 <= i < |ts| && FileCode(ts[i]) }

  function Argv(ts: seq<string>, path: string): seq<string> {
    Expand(ts, path) + if HasFile(ts) then [] else [path]
  }

  /** `build_argv`. */
  method BuildArgv(exec: string, path: string) returns (argv: seq<string>)
    ensures argv == Argv(Tokens(exec), path)
  {
    var ts := Tokenize(exec);
    argv := [];
    var substituted := false;
    for i := 0 to |ts|
      invariant argv == Expand(ts[..i], path) && (substituted <==> HasFile(ts[..i]))
    {
      var t := ts[i];
      assert ts[..i + 1] == ts[..i] + [t];
      ExpandStep(ts[..i], t, path);
      HasFileStep(ts[..i], t);
      if FileCode(t) {
        argv, substituted := argv + [path], true;
      } else if !Dropped(t) {
        argv := argv + [Unpercent(t)];
      }
    }
    assert ts[..|ts|] == ts;
    if !substituted { argv := argv + [path]; }
  }

  function ExpandOne(t: string, path: string): seq<string> {
    if FileCode(t) then [path] else if Dropped(t) then [] else [Unpercent(t)]
  }

  lemma {:induction false} ExpandStep(ts: seq<string>, t: string, path: string)
    ensures Expand(ts + [t], path) == Expand(ts, path) + ExpandOne(t, path)
    decreases |ts|
  {
    if ts == [] {
      assert ts + [t] == [t] && [t][1..] == [];
      assert ExpandOne(t, path) + [] == ExpandOne(t, path);
    } else {
      assert (ts + [t])[0] == ts[0] && (ts + [t])[1..] == ts[1..] + [t];
      ExpandStep(ts[1..], t, path);
      Assoc(ExpandOne(ts[0], path), Expand(ts[1..], path), ExpandOne(t, path));
    }
  }

  lemma HasFileStep(ts: seq<string>, t: string)
    ensures HasFile(ts + [t]) <==> HasFile(ts) || FileCode(t)
  {
    var all := ts + [t];
    if HasFile(ts) {
      var i :| 0 <= i < |ts| && FileCode(ts[i]);
      assert all[i] == ts[i];
    }
    if FileCode(t) { assert all[|ts|] == t; }
  }

  lemma {:induction false} ExpandHasFile(ts: seq<string>, path: string)
    requires HasFile(ts)
    ensures path in Expand(ts, path)
    decreases |ts|
  {
    var i :| 0 <= i < |ts| && FileCode(ts[i]);
    if !FileCode(ts[0]) {
      assert ts[1..][i - 1] == ts[i];
      ExpandHasFile(ts[1..], path);
    }
  }

  /** The command always receives the path, whole and as one argument, whatever characters are in it. */
  lemma PathIsPassed(exec: string, path: string)
    ensures path in Argv(Tokens(exec), path)
  {
    if HasFile(Tokens(exec)) { ExpandHasFile(Tokens(exec), path); }
  }

  /** For a command line printed from an argument list, each argument is expanded on its own. */
  lemma PrintedCommand(args: seq<string>, path: string)
    ensures Argv(Tokens(Print(args)), path) == Argv(args, path)
  {
    PrintRoundTrip(args);
  }
}
