/**
 The limits of PromptService.compile: a value that is not safe disagrees with simultaneous
 substitution in some template and record, so safety is the exact condition.
 */
module PromptLimits {
  import opened Wrappers
  import opened PromptTemplate

  lemma DoneStarts(s: string)
    requires Drive(Start, s) == Done
    ensures "{{" <= s && Drive(Lead, s[2..]) == Done
  {
    assert s != "";
    if s[0] != '{' {
      DriveStays(Dead, s[1..]);
    } else {
      assert |s| > 1;
      assert s[1..][1..] == s[2..];
      if s[1] != '{' {
        DriveStays(Dead, s[2..]);
      }
    }
  }

  lemma DoneEnds(post: string, r: string)
    requires AllSpace(post) && (r != "" ==> !IsSpace(r[0]))
    requires (post + r != "" ==> !IsWord((post + r)[0])) && Drive(Word, post + r) == Done
    ensures "}}" <= r
  {
    DriveAppend(Word, post, r);
    if post != "" {
      DriveStays(Trail, post[1..]);
    } else {
      assert post + r == r;
    }
    assert r != "";
    if r[0] != '}' {
      DriveStays(Dead, r[1..]);
    } else if |r| > 1 && r[1] != '}' {
      DriveStays(Dead, r[1..][1..]);
    }
  }

  lemma DoneIsHole(s: string)
    requires Drive(Start, s) == Done
    ensures HoleAt(s).Some?
  {
    hide SplitSpaces, SplitWord;
    DoneStarts(s);
    var (pre, r1) := SplitSpaces(s[2..]);
    var (key, r2) := SplitWord(r1);
    var (post, r3) := SplitSpaces(r2);
    DriveAppend(Lead, pre, r1);
    DriveStays(Lead, pre);
    assert r1 != "";
    if !IsWord(r1[0]) {
      DriveStays(Dead, r1[1..]);
    } else {
      assert key == "" ==> r1 == r2;
      DriveAppend(Lead, key, r2);
      DriveStays(Word, key[1..]);
      DoneEnds(post, r3);
    }
  }

  /** Text that completes an open placeholder. */
  function Completion(st: Scan): string {
    match st
    case Start => "{{c}}"
    case Brace => "{c}}"
    case Lead => "c}}"
    case Word => "}}"
    case Trail => "}}"
    case Close => "}"
    case Done => ""
    case Dead => ""
  }

  lemma CompletionCompletes(st: Scan)
    requires st != Dead
    ensures Drive(st, Completion(st)) == Done
  {
    assert "{{c}}"[1..] == "{c}}" && "{c}}"[1..] == "c}}" && "c}}"[1..] == "}}" && "}}"[1..] == "}";
    assert Drive(Close, "}") == Done;
    assert Drive(Word, "}}") == Done && Drive(Trail, "}}") == Done;
    assert Drive(Lead, "c}}") == Done;
    assert Drive(Brace, "{c}}") == Done;
  }

  lemma CompletionIsSafe(st: Scan)
    requires st != Start
    ensures Safe(Completion(st))
  {
    var s := Completion(st);
    forall j | 0 <= j < |s| ensures !Opens(s[j..]) {
      var t := s[j..];
      if t[0] == '{' {
        assert |t| > 1 && t[1] == 'c' && Drive(Brace, t[1..]) == Drive(Dead, t[1..][1..]);
        DriveStays(Dead, t[1..][1..]);
      } else {
        DriveStays(Dead, t[1..]);
      }
    }
  }

  /** Replacing by the empty string shortens a text in which a match starts. */
  lemma {:induction false} ErasingShortens(s: string, i: nat, j: nat, key: string)
    requires i <= |s|
    requires i <= j <= |s| && MatchFrom(s, j, key) > 0
    ensures |ReplaceFrom(s, i, key, "")| < |s| - i
    decreases |s| - i
  {
    hide MatchFrom, Expand;
    var n := MatchFrom(s, i, key);
    EmptyExpands(s[..i], s[i..i + n], s[i + n..]);
    if n > 0 {
      ErasingNeverLengthens(s, i + n, key);
    } else {
      ErasingShortens(s, i + 1, j, key);
    }
  }

  lemma {:induction false} ErasingNeverLengthens(s: string, i: nat, key: string)
    requires i <= |s|
    ensures |ReplaceFrom(s, i, key, "")| <= |s| - i
    decreases |s| - i
  {
    hide MatchFrom, Expand;
    if i < |s| {
      var n := MatchFrom(s, i, key);
      EmptyExpands(s[..i], s[i..i + n], s[i + n..]);
      ErasingNeverLengthens(s, if n > 0 then i + n else i + 1, key);
    }
  }

  lemma EmptyExpands(before: string, matched: string, after: string)
    ensures Expand("", before, matched, after) == ""
  {}

  /** The fold does what simultaneous substitution does, whenever the other values are safe. */
  ghost predicate AgreesEverywhere(value: string) {
    forall ps: seq<Piece>, vars: seq<Variable>, i: nat ::
      WellFormed(ps) && IsRecord(vars) && i < |vars| && vars[i].value == value
      && (forall j | 0 <= j < |vars| && j != i :: Safe(vars[j].value))
      ==> Compile(Render(ps), vars) == Render(Substitute(ps, vars))
  }

  lemma HoleIsMatched(t: string)
    requires HoleAt(t).Some?
    ensures HoleAt(t).value.Hole? && Identifier(HoleAt(t).value.key) && MatchAt(t, HoleAt(t).value.key) > 0
  {
    hide HoleAt, MatchAt;
    HoleAtShows(t);
    var hole := HoleAt(t).value;
    assert [hole][0] == hole;
    HoleMatches(hole.pre, hole.key, hole.post, t[|Show(hole)|..], hole.key);
    assert t == Show(hole) + t[|Show(hole)|..];
  }

  lemma Agreement(value: string, ps: seq<Piece>, vars: seq<Variable>, i: nat)
    requires WellFormed(ps) && IsRecord(vars) && i < |vars| && vars[i].value == value
    requires forall j | 0 <= j < |vars| && j != i :: Safe(vars[j].value)
    ensures AgreesEverywhere(value) ==> Compile(Render(ps), vars) == Render(Substitute(ps, vars))
  {}

  /** An open value can be followed by text that completes a placeholder. */
  lemma OpenValueCompletes(value: string, j: nat) returns (w: string, key: string)
    requires j < |value| && Opens(value[j..])
    ensures Safe(w) && Identifier(key) && MatchFrom(value + w, j, key) > 0
  {
    hide HoleAt, MatchAt, Completion;
    var st := Drive(Start, value[j..]);
    StartIsLeft(value[j..]);
    w := Completion(st);
    CompletionIsSafe(st);
    DriveAppend(Start, value[j..], w);
    CompletionCompletes(st);
    var t := value[j..] + w;
    DoneIsHole(t);
    HoleIsMatched(t);
    key := HoleAt(t).value.key;
    assert t == (value + w)[j..];
  }

  lemma CompileCons(template: string, v: Variable, vars: seq<Variable>)
    ensures Compile(template, [v] + vars) == Compile(ReplaceAll(template, v.key, v.value), vars)
  {
    assert ([v] + vars)[1..] == vars;
  }

  lemma CompileTwo(value: string, written: string, w: string, key: string)
    requires ExpandsTo(written, value) && Closed(w) && Identifier(key)
    ensures var ps := [Hole("", key + "x", ""), Text(w)];
            var vars := [Variable(key + "x", value), Variable(key, "")];
            && WellFormed(ps) && IsRecord(vars)
            && Compile(Render(ps), [Variable(key + "x", written), Variable(key, "")]) == ReplaceAll(value + w, key, "")
            && Render(Substitute(ps, vars)) == value + w
  {
    hide ReplaceFrom, Closed, ExpandsTo;
    var a := key + "x";
    var p := Hole("", a, "");
    var ps := [p, Text(w)];
    var vars := [Variable(a, value), Variable(key, "")];
    assert a[|key|] == 'x' && a != key;
    assert [Variable(a, written), Variable(key, "")] == [Variable(a, written)] + ([Variable(key, "")] + []);
    assert ps == [p] + ([Text(w)] + []);
    FillCons(Text(w), [], a, value, vars);
    FillCons(p, [Text(w)] + [], a, value, vars);
    RenderCons(Text(w), []);
    RenderCons(Text(value), [Text(w)] + []);
    ReplaceFillsWith(Render(ps), 0, ps, a, written, value);
    assert w + "" == w;
    assert ReplaceAll(Render(ps), a, written) == value + w;
    CompileCons(Render(ps), Variable(a, written), [Variable(key, "")] + []);
    CompileCons(value + w, Variable(key, ""), []);
  }

  /** A value that leaves a placeholder open, followed by text that closes it. */
  lemma OpenValueDisagrees(value: string)
    requires Inert(value) && !Closed(value)
    ensures !AgreesEverywhere(value)
  {
    hide AgreesEverywhere, Render, Substitute, ReplaceFrom, Compile, Expand, WellFormed;
    var j: nat :| j < |value| && Opens(value[j..]);
    var w, key := OpenValueCompletes(value, j);
    ErasingShortens(value + w, 0, j, key);
    InertExpandsTo(value);
    CompileTwo(value, value, w, key);
    var vars := [Variable(key + "x", value), Variable(key, "")];
    assert Safe("");
    Agreement(value, [Hole("", key + "x", ""), Text(w)], vars, 0);
  }

  lemma StartIsLeft(s: string)
    requires s != ""
    ensures Drive(Start, s) != Start
  {
    NeverStart(Next(Start, s[0]), s[1..]);
  }

  lemma {:induction false} NeverStart(st: Scan, s: string)
    requires st != Start
    ensures Drive(st, s) != Start
    decreases |s|
  {
    if s != "" {
      NeverStart(Next(st, s[0]), s[1..]);
    }
  }

  /** A `$` pattern shortens the value, or brings in one of the three long texts around it. */
  lemma {:induction false} PatternsResize(val: string, before: string, matched: string, after: string, n: nat)
    requires !Inert(val)
    requires |before| > n && |matched| > n && |after| > n
    ensures var m := |Expand(val, before, matched, after)|; m < |val| || m > n
    decreases |val|
  {
    var j :| 0 <= j < |val| - 1 && val[j] == '$' && IsDirective(val[j + 1]);
    if val[0] == '$' && IsDirective(val[1]) {
      if Inert(val[2..]) {
        InertExpands(val[2..], before, matched, after);
      } else {
        PatternsResize(val[2..], before, matched, after, n);
      }
    } else {
      assert val[1..][j - 1] == '$' && IsDirective(val[1..][j]);
      PatternsResize(val[1..], before, matched, after, n);
    }
  }

  /** The values without a pattern are exactly those that are inserted as they are, wherever they stand. */
  lemma InertIff(value: string)
    ensures Inert(value) <==> ExpandsTo(value, value)
  {
    if Inert(value) {
      InertExpandsTo(value);
    } else {
      var long := seq(|value| + 1, i => 'X');
      PatternsResize(value, long, long, long, |value|);
    }
  }

  lemma BetweenPieces(x: string, p: Piece, y: string, value: string)
    requires p.Hole?
    ensures var ps, vars := [Text(x), p, Text(y)], [Variable(p.key, value)];
            Render(ps) == x + (Show(p) + y) && Render(Substitute(ps, vars)) == x + (value + y)
  {
    var ps, vars := [Text(x), p, Text(y)], [Variable(p.key, value)];
    assert ps == [Text(x)] + ([p] + ([Text(y)] + []));
    assert Lookup(vars, p.key) == Some(value);
    FillCons(Text(y), [], p.key, value, vars);
    FillCons(p, [Text(y)] + [], p.key, value, vars);
    FillCons(Text(x), [p] + ([Text(y)] + []), p.key, value, vars);
    RenderCons(Text(y), []);
    RenderCons(p, [Text(y)] + []);
    RenderCons(Text(value), [Text(y)] + []);
    RenderCons(Text(x), [p] + ([Text(y)] + []));
    RenderCons(Text(x), [Text(value)] + ([Text(y)] + []));
    assert y + "" == y;
  }

  lemma BetweenReplace(x: string, p: Piece, y: string, value: string)
    requires WellFormed([Text(x)]) && WellFormed([Text(y)]) && WellFormed([p]) && p.Hole? && Identifier(p.key)
    ensures ReplaceAll(x + (Show(p) + y), p.key, value) == x + (Expand(value, x, Show(p), y) + y)
  {
    hide *;
    var n, m := |x|, |x| + |Show(p)|;
    var s := x + (Show(p) + y);
    ShowText(x);
    ShowText(y);
    assert s[0..] == s && s[..n] == x && s[n..] == Show(p) + y && s[m..] == y + "";
    ReplaceOverPiece(s, 0, Text(x), Show(p) + y, p.key, value);
    ReplaceOverPiece(s, n, p, y, p.key, value);
    ReplaceOverPiece(s, m, Text(y), "", p.key, value);
    ReplaceAtEnd(s, p.key, value);
    assert y + "" == y;
    ReplaceAllIs(s, p.key, value);
  }

  lemma ReplaceAtEnd(s: string, key: string, val: string)
    ensures ReplaceFrom(s, |s|, key, val) == ""
  {}

  lemma ReplaceAllIs(s: string, key: string, val: string)
    ensures ReplaceAll(s, key, val) == ReplaceFrom(s, 0, key, val)
  {}

  lemma CompileBetween(x: string, p: Piece, y: string, value: string)
    requires Closed(x) && Closed(y) && p.Hole? && WellFormed([p])
    ensures var ps, vars := [Text(x), p, Text(y)], [Variable(p.key, value)];
            && WellFormed(ps) && IsRecord(vars)
            && Compile(Render(ps), vars) == x + (Expand(value, x, Show(p), y) + y)
            && Render(Substitute(ps, vars)) == x + (value + y)
  {
    hide ReplaceFrom, Expand, Closed, Render, Substitute, ReplaceAll;
    assert [p][0] == p;
    BetweenPieces(x, p, y, value);
    BetweenReplace(x, p, y, value);
    CompileCons(x + (Show(p) + y), Variable(p.key, value), []);
    assert [Variable(p.key, value)] + [] == [Variable(p.key, value)];
  }

  lemma PatternValueDisagrees(value: string)
    requires !Inert(value)
    ensures !AgreesEverywhere(value)
  {
    hide AgreesEverywhere, Render, Substitute, ReplaceFrom, Compile, Closed;
    var n := |value|;
    var x := seq(n + 1, i => 'X');
    var p := Hole(seq(n, i => ' '), "a", "");
    PlainValuesAreSafe(x);
    CompileBetween(x, p, x, value);
    PatternsResize(value, x, Show(p), x, n);
    Agreement(value, [Text(x), p, Text(x)], [Variable("a", value)], 0);
  }

  /**
   Exactly when the fold may be trusted with a value.  Safe is decided by the value alone,
   before the call; AgreesEverywhere speaks of every template and every record the value can be in.
   */
  lemma ValueIsSafeIff(value: string)
    ensures Safe(value) <==> AgreesEverywhere(value)
  {
    if Safe(value) {
      forall ps: seq<Piece>, vars: seq<Variable>, i: nat |
        WellFormed(ps) && IsRecord(vars) && i < |vars| && vars[i].value == value
        && (forall j | 0 <= j < |vars| && j != i :: Safe(vars[j].value))
        ensures Compile(Render(ps), vars) == Render(Substitute(ps, vars))
      {
        CompileIsSubstitution(ps, vars);
      }
    } else if Inert(value) {
      OpenValueDisagrees(value);
    } else {
      PatternValueDisagrees(value);
    }
  }

  // ---------------------------------------------------------------- dollars

  /**
   What the patterns put in, for a placeholder between two texts: one dollar, the placeholder itself, the
   text before it, the text after it.
   */
  lemma PatternsPutIn(x: string, p: Piece, y: string)
    requires Closed(x) && Closed(y) && p.Hole? && WellFormed([p])
    ensures var t := Render([Text(x), p, Text(y)]);
            && Compile(t, [Variable(p.key, "$$")]) == x + ("$" + y)
            && Compile(t, [Variable(p.key, "$&")]) == x + (Show(p) + y)
            && Compile(t, [Variable(p.key, "$`")]) == x + (x + y)
            && Compile(t, [Variable(p.key, "$'")]) == x + (y + y)
  {
    assert "$$"[2..] == "$&"[2..] == "$`"[2..] == "$'"[2..] == "";
    assert Expand("", x, Show(p), y) == "";
    assert "$" + "" == "$" && Show(p) + "" == Show(p) && x + "" == x && y + "" == y;
    assert Expand("$$", x, Show(p), y) == "$" && Expand("$&", x, Show(p), y) == Show(p);
    assert Expand("$`", x, Show(p), y) == x && Expand("$'", x, Show(p), y) == y;
    hide *;
    CompileBetween(x, p, y, "$$");
    CompileBetween(x, p, y, "$&");
    CompileBetween(x, p, y, "$`");
    CompileBetween(x, p, y, "$'");
  }

  /** The value with each dollar written twice. */
  function Doubled(value: string): string {
    if value == "" then "" else (if value[0] == '$' then "$$" else [value[0]]) + Doubled(value[1..])
  }

  lemma {:induction false} DoubledExpands(value: string, before: string, matched: string, after: string)
    ensures Expand(Doubled(value), before, matched, after) == value
    decreases |value|
  {
    if value != "" {
      DoubledExpands(value[1..], before, matched, after);
      var rest := Doubled(value[1..]);
      if value[0] == '$' {
        assert Doubled(value) == "$$" + rest && ("$$" + rest)[2..] == rest;
      } else {
        assert Doubled(value) == [value[0]] + rest && ([value[0]] + rest)[1..] == rest;
      }
    }
  }

  lemma DoubledExpandsTo(value: string)
    ensures ExpandsTo(Doubled(value), value)
  {
    forall before: string, matched: string, after: string
      ensures Expand(Doubled(value), before, matched, after) == value {
      DoubledExpands(value, before, matched, after);
    }
  }

  /** Handed over with its dollars doubled, the value is put in as simultaneous substitution would put it in. */
  ghost predicate DoubledAgreesEverywhere(value: string) {
    forall ps: seq<Piece>, vars: seq<Variable>, i: nat ::
      WellFormed(ps) && IsRecord(vars) && i < |vars| && vars[i].value == value
      && (forall j | 0 <= j < |vars| && j != i :: Safe(vars[j].value))
      ==> Compile(Render(ps), vars[i := Variable(vars[i].key, Doubled(value))]) == Render(Substitute(ps, vars))
  }

  lemma DoubledAgreement(value: string, ps: seq<Piece>, vars: seq<Variable>, i: nat)
    requires WellFormed(ps) && IsRecord(vars) && i < |vars| && vars[i].value == value
    requires forall j | 0 <= j < |vars| && j != i :: Safe(vars[j].value)
    ensures DoubledAgreesEverywhere(value) ==>
      Compile(Render(ps), vars[i := Variable(vars[i].key, Doubled(value))]) == Render(Substitute(ps, vars))
  {}

  lemma DoubledClosed(value: string, ps: seq<Piece>, vars: seq<Variable>, i: nat)
    requires Closed(value) && WellFormed(ps) && IsRecord(vars) && i < |vars| && vars[i].value == value
    requires forall j | 0 <= j < |vars| && j != i :: Safe(vars[j].value)
    ensures Compile(Render(ps), vars[i := Variable(vars[i].key, Doubled(value))]) == Render(Substitute(ps, vars))
  {
    var written := vars[i := Variable(vars[i].key, Doubled(value))];
    DoubledExpandsTo(value);
    forall j | 0 <= j < |vars| ensures ExpandsTo(written[j].value, vars[j].value) && Closed(vars[j].value) {
      if j != i {
        InertExpandsTo(vars[j].value);
      }
    }
    CompileExpands(ps, vars, written);
  }

  lemma DoubledOpenDisagrees(value: string)
    requires !Closed(value)
    ensures !DoubledAgreesEverywhere(value)
  {
    hide DoubledAgreesEverywhere, Render, Substitute, ReplaceFrom, Compile, Expand, WellFormed, ExpandsTo, Doubled;
    var j: nat :| j < |value| && Opens(value[j..]);
    var w, key := OpenValueCompletes(value, j);
    ErasingShortens(value + w, 0, j, key);
    DoubledExpandsTo(value);
    CompileTwo(value, Doubled(value), w, key);
    var vars := [Variable(key + "x", value), Variable(key, "")];
    assert Safe("");
    assert vars[0 := Variable(key + "x", Doubled(value))] == [Variable(key + "x", Doubled(value)), Variable(key, "")];
    DoubledAgreement(value, [Hole("", key + "x", ""), Text(w)], vars, 0);
  }

  /**
   Doubling is the exact cure for dollars: handed over so, a value agrees with simultaneous substitution in
   every template and record if and only if it leaves no placeholder open, whatever dollars are in it.
   */
  lemma DoublingCuresDollars(value: string)
    ensures Closed(value) <==> DoubledAgreesEverywhere(value)
  {
    if Closed(value) {
      forall ps: seq<Piece>, vars: seq<Variable>, i: nat |
        WellFormed(ps) && IsRecord(vars) && i < |vars| && vars[i].value == value
        && (forall j | 0 <= j < |vars| && j != i :: Safe(vars[j].value))
        ensures Compile(Render(ps), vars[i := Variable(vars[i].key, Doubled(value))]) == Render(Substitute(ps, vars))
      {
        DoubledClosed(value, ps, vars, i);
      }
    } else {
      DoubledOpenDisagrees(value);
    }
  }

  lemma MatchedPattern(before: string, matched: string, after: string)
    ensures Expand("$&", before, matched, after) == matched
  {
    assert "$&"[2..] == "";
  }

  lemma {:induction false} MatchedPatternFrom(s: string, i: nat, ps: seq<Piece>, key: string)
    requires i <= |s| && s[i..] == Render(ps) && WellFormed(ps) && Identifier(key)
    ensures ReplaceFrom(s, i, key, "$&") == Render(ps)
    decreases |ps|
  {
    hide *;
    if ps == [] {
      ReplaceNothing(s, i, key, "$&");
      RenderNothing();
    } else {
      WellFormedCons(ps);
      RenderHead(ps);
      DropPiece(s, i, Show(ps[0]), Render(ps[1..]));
      MatchedPatternFrom(s, i + |Show(ps[0])|, ps[1..], key);
      ReplaceOverPiece(s, i, ps[0], Render(ps[1..]), key, "$&");
      MatchedPattern(s[..i], Show(ps[0]), Render(ps[1..]));
    }
  }

  lemma RenderNothing()
    ensures Render([]) == ""
  {}

  /** An extreme of an unsafe value: `$&` puts every placeholder back, and nothing is substituted. */
  lemma MatchedPatternRestores(ps: seq<Piece>, key: string)
    requires WellFormed(ps) && Identifier(key)
    ensures Compile(Render(ps), [Variable(key, "$&")]) == Render(ps)
  {
    assert Render(ps)[0..] == Render(ps);
    MatchedPatternFrom(Render(ps), 0, ps, key);
    hide *;
    CompileCons(Render(ps), Variable(key, "$&"), []);
    ReplaceAllIs(Render(ps), key, "$&");
    CompileNothing(Render(ps));
    assert [Variable(key, "$&")] + [] == [Variable(key, "$&")];
  }

  // ---------------------------------------------------------------- splitting a template

  lemma {:induction false} SplitWordOver(word: string, rest: string)
    requires forall i | 0 <= i < |word| :: IsWord(word[i])
    requires rest != "" ==> !IsWord(rest[0])
    ensures SplitWord(word + rest) == (word, rest)
  {
    if word == "" {
      assert word + rest == rest;
    } else {
      assert (word + rest)[1..] == word[1..] + rest;
      SplitWordOver(word[1..], rest);
      assert [word[0]] + word[1..] == word;
    }
  }

  lemma SplitSpacesOver(w: string, rest: string)
    requires AllSpace(w) && (rest != "" ==> !IsSpace(rest[0]))
    ensures SplitSpaces(w + rest) == (w, rest)
  {
    SkipSpacesOver(w, rest);
  }

  lemma HoleAtShow(p: Piece, rest: string)
    requires p.Hole? && WellFormed([p])
    ensures HoleAt(Show(p) + rest) == Some(p)
  {
    assert [p][0] == p;
    var r3 := "}}" + rest;
    var r2 := p.post + r3;
    var r1 := p.key + r2;
    ShowAppend(p.pre, p.key, p.post, rest);
    assert ("{{" + (p.pre + r1))[2..] == p.pre + r1;
    SplitSpacesOver(p.pre, r1);
    assert r2[0] == if p.post == "" then '}' else p.post[0];
    SplitWordOver(p.key, r2);
    SplitSpacesOver(p.post, r3);
    hide SplitSpaces, SplitWord, Show;
  }

  lemma NoHoleInText(chars: string, rest: string)
    requires Closed(chars) && chars != ""
    ensures HoleAt(chars + rest).None?
  {
    hide HoleAt, MatchAt;
    assert chars[0..] == chars;
    if HoleAt(chars + rest).Some? {
      HoleIsMatched(chars + rest);
      MatchOpens(chars, rest, HoleAt(chars + rest).value.key);
    }
  }

  lemma {:induction false} ParseText(chars: string, rest: string)
    requires Closed(chars) && chars != "" && (Parse(rest) == [] || Parse(rest)[0].Hole?)
    ensures Parse(chars + rest) == [Text(chars)] + Parse(rest)
    decreases |chars|
  {
    hide HoleAt;
    NoHoleInText(chars, rest);
    assert (chars + rest)[1..] == chars[1..] + rest;
    if |chars| == 1 {
      assert chars[1..] + rest == rest;
      assert chars == [chars[0]];
    } else {
      forall j | 0 <= j < |chars| - 1 ensures !Opens(chars[1..][j..]) {
        assert chars[1..][j..] == chars[j + 1..];
      }
      ParseText(chars[1..], rest);
      assert [chars[0]] + chars[1..] == chars;
    }
  }

  lemma ParseHole(p: Piece, rest: string)
    requires p.Hole? && WellFormed([p])
    ensures Parse(Show(p) + rest) == [p] + Parse(rest)
  {
    HoleAtShow(p, rest);
    hide HoleAt;
    assert (Show(p) + rest)[|Show(p)|..] == rest;
  }

  /** No empty text, and no text right after another. */
  predicate Normal(ps: seq<Piece>) {
    && (forall i | 0 <= i < |ps| :: ps[i].Text? ==> ps[i].chars != "")
    && (forall i | 0 <= i < |ps| - 1 :: ps[i].Text? ==> ps[i + 1].Hole?)
  }

  /** Splitting finds the placeholders, and the text between them, that a template was made from. */
  lemma {:induction false} ParseRender(ps: seq<Piece>)
    requires WellFormed(ps) && Normal(ps)
    ensures Parse(Render(ps)) == ps
  {
    if ps != [] {
      WellFormedCons(ps);
      assert [ps[0]][0] == ps[0];
      RenderHead(ps);
      ParseRender(ps[1..]);
      hide Render, Parse, Closed;
      if ps[0].Hole? {
        ParseHole(ps[0], Render(ps[1..]));
      } else {
        ShowText(ps[0].chars);
        ParseText(ps[0].chars, Render(ps[1..]));
      }
    }
  }

  // ---------------------------------------------------------------- template text

  /** The fold does what simultaneous substitution does in every template that contains this text. */
  ghost predicate TextAgreesEverywhere(text: string) {
    forall before: seq<Piece>, after: seq<Piece>, vars: seq<Variable> ::
      WellFormed(before) && WellFormed(after) && IsRecord(vars) && AllSafe(vars)
      ==> Compile(Render(before + [Text(text)] + after), vars)
          == Render(Substitute(before + [Text(text)] + after, vars))
  }

  lemma MatchedHole(t: string, key: string) returns (hole: Piece)
    requires MatchAt(t, key) > 0 && Identifier(key)
    ensures hole.Hole? && WellFormed([hole]) && t[..MatchAt(t, key)] == Show(hole) && |Show(hole)| >= |key| + 4
  {
    MatchSplits(t, key);
    hide MatchAt;
    var pre, post :| AllSpace(pre) && AllSpace(post) && t[..MatchAt(t, key)] == Show(Hole(pre, key, post));
    hole := Hole(pre, key, post);
  }

  lemma BracesAfter(text: string, p: Piece, j: nat)
    requires p.Hole? && j < |text|
    ensures var t, m := (text + Show(p))[j..], |text| - j; |t| > m + 1 && t[m] == '{' && t[m + 1] == '{'
  {}

  /** A key longer than the text before a placeholder is not matched in that text. */
  lemma NoLongMatch(text: string, p: Piece, j: nat)
    requires p.Hole? && Identifier(p.key) && |p.key| > |text| && j < |text|
    ensures MatchAt((text + Show(p))[j..], p.key) == 0
  {
    hide *;
    var t, m := (text + Show(p))[j..], |text| - j;
    BracesAfter(text, p, j);
    if MatchAt(t, p.key) > 0 {
      var hole := MatchedHole(t, p.key);
      OneBracePair(hole, t[..MatchAt(t, p.key)], m);
    }
  }

  /** A placeholder longer than m + 2 has no two braces at m. */
  lemma OneBracePair(hole: Piece, shown: string, m: nat)
    requires hole.Hole? && WellFormed([hole]) && shown == Show(hole) && 0 < m && m + 2 < |shown|
    ensures !(shown[m] == '{' && shown[m + 1] == '{')
  {
    HoleBraces(hole, if m == 1 then 2 else m);
  }

  lemma ReplaceAfterText(text: string, p: Piece, value: string)
    requires p.Hole? && WellFormed([p]) && |p.key| > |text| && Inert(value) && Identifier(p.key)
    ensures ReplaceAll(text + Show(p), p.key, value) == text + value
  {
    var s, n := text + Show(p), |text|;
    forall j | 0 <= j < n ensures MatchFrom(s, j, p.key) == 0 {
      NoLongMatch(text, p, j);
    }
    hide *;
    CopyStretch(s, 0, n, p.key, value);
    assert s[0..n] == text && s[n..] == Show(p) + "";
    ReplaceOverPiece(s, n, p, "", p.key, value);
    InertExpands(value, s[..n], Show(p), "");
    ReplaceAtEnd(s, p.key, value);
    assert value + "" == value;
    ReplaceAllIs(s, p.key, value);
  }

  lemma TextThenHole(text: string, p: Piece, value: string, key: string)
    requires p.Hole? && Identifier(p.key) && p.key != key && Identifier(key)
    ensures var ps, vars := [] + [Text(text)] + [p], [Variable(p.key, value), Variable(key, "")];
            Render(ps) == text + Show(p) && Render(Substitute(ps, vars)) == text + value
  {
    var vars := [Variable(p.key, value), Variable(key, "")];
    assert [] + [Text(text)] + [p] == [Text(text)] + ([p] + []);
    FillCons(p, [], p.key, value, vars);
    FillCons(Text(text), [p] + [], p.key, value, vars);
    RenderCons(p, []);
    RenderCons(Text(text), [p] + []);
    RenderCons(Text(value), []);
    RenderCons(Text(text), [Text(value)] + []);
    assert Show(p) + "" == Show(p) && value + "" == value;
  }

  lemma FreshRecord(text: string, key: string, w: string)
    requires text != "" && Identifier(key) && Safe(w)
    ensures var a := key + seq(|text|, i => 'x');
            var vars := [Variable(a, w), Variable(key, "")];
            && |a| > |text| && a != key && Identifier(a) && WellFormed([Hole("", a, "")])
            && IsRecord(vars) && AllSafe(vars) && WellFormed([])
  {
    assert |key + seq(|text|, i => 'x')| > |key|;
    assert Safe("");
  }

  lemma OpensSomewhere(text: string) returns (j: nat)
    requires !Closed(text)
    ensures j < |text| && Opens(text[j..])
  {
    j :| j < |text| && Opens(text[j..]);
  }

  lemma OpenTextDisagrees(text: string)
    requires !Closed(text)
    ensures !TextAgreesEverywhere(text)
  {
    hide *;
    var j := OpensSomewhere(text);
    var w, key := OpenValueCompletes(text, j);
    var a := key + seq(|text|, i => 'x');
    var p := Hole("", a, "");
    var vars := [Variable(a, w), Variable(key, "")];
    FreshRecord(text, key, w);
    ErasingShortens(text + w, 0, j, key);
    SafeIsInert(w);
    ReplaceAfterText(text, p, w);
    TextThenHole(text, p, w, key);
    CompileCons(text + Show(p), Variable(a, w), [Variable(key, "")] + []);
    CompileCons(text + w, Variable(key, ""), []);
    assert vars == [Variable(a, w)] + ([Variable(key, "")] + []);
    ReplaceAllIs(text + w, key, "");
    CompileNothing(ReplaceAll(text + w, key, ""));
    TextAgreement(text, [], [p], vars);
  }

  lemma SafeIsInert(value: string)
    requires Safe(value)
    ensures Inert(value)
  {}

  lemma CompileNothing(template: string)
    ensures Compile(template, []) == template
  {}

  lemma TextAgreement(text: string, before: seq<Piece>, after: seq<Piece>, vars: seq<Variable>)
    requires WellFormed(before) && WellFormed(after) && IsRecord(vars) && AllSafe(vars)
    ensures TextAgreesEverywhere(text) ==>
      Compile(Render(before + [Text(text)] + after), vars) == Render(Substitute(before + [Text(text)] + after, vars))
  {}

  /** Exactly which texts a template may contain between its placeholders. */
  lemma TextIsClosedIff(text: string)
    ensures Closed(text) <==> TextAgreesEverywhere(text)
  {
    if Closed(text) {
      forall before: seq<Piece>, after: seq<Piece>, vars: seq<Variable> |
        WellFormed(before) && WellFormed(after) && IsRecord(vars) && AllSafe(vars)
        ensures Compile(Render(before + [Text(text)] + after), vars)
             == Render(Substitute(before + [Text(text)] + after, vars))
      {
        CompileIsSubstitution(before + [Text(text)] + after, vars);
      }
    } else {
      OpenTextDisagrees(text);
    }
  }

  /** The rule of thumb: no `$`, no two opening braces in a row, none at the end. */
  lemma PlainValuesAreSafe(value: string)
    requires forall i | 0 <= i < |value| :: value[i] != '$'
    requires forall i | 0 <= i < |value| - 1 :: !(value[i] == '{' && value[i + 1] == '{')
    requires value != "" ==> value[|value| - 1] != '{'
    ensures Safe(value)
  {
    forall j | 0 <= j < |value| ensures !Opens(value[j..]) {
      var t := value[j..];
      if t[0] == '{' {
        assert |t| > 1 && t[1] == value[j + 1];
        assert Drive(Start, t) == Drive(Brace, t[1..]) == Drive(Dead, t[1..][1..]);
        DriveStays(Dead, t[1..][1..]);
      } else {
        DriveStays(Dead, t[1..]);
      }
    }
  }
}
