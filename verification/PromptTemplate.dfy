/**
 PromptService.compile: one global regular-expression replacement per variable,
 folded over the entries of the variables record.

 The intended meaning is simultaneous substitution.  The fold rescans text that earlier
 variables inserted, and String.prototype.replace expands `$` patterns in the replacement
 string, so the two differ on some values.  `PromptLimits.ValueIsSafeIff` says on exactly which.
 */
module PromptTemplate {
  import opened Wrappers

  // ---------------------------------------------------------------- characters

  /** The class `\s` of ECMAScript regular expressions. */
  predicate IsSpace(c: char) {
    var u := c as int;
    || 9 <= u <= 13 || u == 0x20 || u == 0xA0 || u == 0x1680 || 0x2000 <= u <= 0x200A
    || u == 0x2028 || u == 0x2029 || u == 0x202F || u == 0x205F || u == 0x3000 || u == 0xFEFF
  }

  predicate IsWord(c: char) {
    'a' <= c <= 'z' || 'A' <= c <= 'Z' || '0' <= c <= '9' || c == '_'
  }

  /** WhiteSpace and LineTerminator of ECMA-262 (12.2 and 12.3), code point by code point. */
  lemma SpaceCodes(c: char)
    ensures IsSpace(c) <==> c as int in {
      0x0009, 0x000A, 0x000B, 0x000C, 0x000D, 0x0020, 0x00A0, 0x1680, 0x2000, 0x2001, 0x2002, 0x2003, 0x2004, 0x2005,
      0x2006, 0x2007, 0x2008, 0x2009, 0x200A, 0x2028, 0x2029, 0x202F, 0x205F, 0x3000, 0xFEFF}
  {}

  /** The class `\w`: the ASCII codes of digits, capital letters, the underscore and small letters. */
  lemma WordCodes(c: char)
    ensures IsWord(c) <==> var u := c as int; 48 <= u <= 57 || 65 <= u <= 90 || u == 95 || 97 <= u <= 122
  {}

  predicate AllSpace(s: string) {
    forall i | 0 <= i < |s| :: IsSpace(s[i])
  }

  /** The keys that callers use: no character of theirs is special in a regular expression. */
  predicate Identifier(key: string) {
    key != "" && forall i | 0 <= i < |key| :: IsWord(key[i])
  }

  // ---------------------------------------------------------------- the replacement

  function SkipSpaces(s: string): (n: nat)
    ensures n <= |s| && AllSpace(s[..n]) && (n < |s| ==> !IsSpace(s[n]))
  {
    if s != "" && IsSpace(s[0]) then 1 + SkipSpaces(s[1..]) else 0
  }

  /** Length of the match of `\s*\}\}` at the start of s; 0 when there is none. */
  function MatchClose(s: string): (n: nat)
    ensures n <= |s| && n != 1
  {
    var a := SkipSpaces(s);
    if "}}" <= s[a..] then a + 2 else 0
  }

  /** Length of the match of `\s*key\s*\}\}` at the start of s; 0 when there is none. */
  function MatchBody(s: string, key: string): (n: nat)
    ensures n <= |s| && n != 1
  {
    var a := SkipSpaces(s);
    if key <= s[a..] && MatchClose(s[a + |key|..]) > 0
    then a + |key| + MatchClose(s[a + |key|..]) else 0
  }

  /** Length of the match of `\{\{\s*key\s*\}\}` at the start of s; 0 when there is none. */
  function MatchAt(s: string, key: string): (n: nat)
    ensures n <= |s| && n != 1
  {
    if "{{" <= s && MatchBody(s[2..], key) > 0 then 2 + MatchBody(s[2..], key) else 0
  }

  /** Length of the match that starts at position i of s. */
  function MatchFrom(s: string, i: nat, key: string): (n: nat)
    requires i <= |s|
    ensures i + n <= |s|
  {
    MatchAt(s[i..], key)
  }

  predicate IsDirective(c: char) { c == '$' || c == '&' || c == '`' || c == '\'' }

  /** GetSubstitution of ECMA-262 (22.1.3.19.1) for a pattern without capture groups. */
  function Expand(val: string, before: string, matched: string, after: string): string {
    if val == "" then "" else
    if |val| >= 2 && val[0] == '$' && IsDirective(val[1]) then
      (if val[1] == '$' then "$" else if val[1] == '&' then matched
       else if val[1] == '`' then before else after)
      + Expand(val[2..], before, matched, after)
    else
      [val[0]] + Expand(val[1..], before, matched, after)
  }

  /** What a global replace makes of s[i..]: leftmost matches, never overlapping. */
  function ReplaceFrom(s: string, i: nat, key: string, val: string): string
    requires i <= |s|
    decreases |s| - i
  {
    if i == |s| then "" else
    var n := MatchFrom(s, i, key);
    if n > 0 then
      Expand(val, s[..i], s[i..i + n], s[i + n..]) + ReplaceFrom(s, i + n, key, val)
    else
      [s[i]] + ReplaceFrom(s, i + 1, key, val)
  }

  function ReplaceAll(s: string, key: string, val: string): string {
    ReplaceFrom(s, 0, key, val)
  }

  datatype Variable = Variable(key: string, value: string)

  function Compile(template: string, vars: seq<Variable>): string
    decreases |vars|
  {
    if vars == [] then template
    else Compile(ReplaceAll(template, vars[0].key, vars[0].value), vars[1..])
  }

  // ---------------------------------------------------------------- the intended meaning

  datatype Piece = Text(chars: string) | Hole(pre: string, key: string, post: string)

  function Show(p: Piece): string {
    match p
    case Text(chars) => chars
    case Hole(pre, key, post) => "{{" + (pre + (key + (post + "}}")))
  }

  function Render(ps: seq<Piece>): string {
    if ps == [] then "" else Show(ps[0]) + Render(ps[1..])
  }

  function Lookup(vars: seq<Variable>, key: string): Option<string> {
    if vars == [] then None
    else if vars[0].key == key then Some(vars[0].value)
    else Lookup(vars[1..], key)
  }

  /** Simultaneous substitution: every known placeholder at once, unknown ones left as they are. */
  function Substitute(ps: seq<Piece>, vars: seq<Variable>): (r: seq<Piece>)
    ensures |r| == |ps|
  {
    if ps == [] then [] else
    [if ps[0].Hole? && Lookup(vars, ps[0].key).Some?
     then Text(Lookup(vars, ps[0].key).value) else ps[0]] + Substitute(ps[1..], vars)
  }

  // ---------------------------------------------------------------- when they agree

  /** Progress through the pattern `\{\{\s*\w+\s*\}\}`. */
  datatype Scan = Start | Brace | Lead | Word | Trail | Close | Done | Dead

  function Next(st: Scan, c: char): Scan {
    match st
    case Start => if c == '{' then Brace else Dead
    case Brace => if c == '{' then Lead else Dead
    case Lead => if IsSpace(c) then Lead else if IsWord(c) then Word else Dead
    case Word => if IsWord(c) then Word else if IsSpace(c) then Trail else if c == '}' then Close else Dead
    case Trail => if IsSpace(c) then Trail else if c == '}' then Close else Dead
    case Close => if c == '}' then Done else Dead
    case Done => Done
    case Dead => Dead
  }

  function Drive(st: Scan, s: string): Scan
    decreases |s|
  {
    if s == "" then st else Drive(Next(st, s[0]), s[1..])
  }

  /** s starts with a placeholder, or could be continued into one. */
  predicate Opens(s: string) { Drive(Start, s) != Dead }

  /** No placeholder starts in s, whatever follows s. */
  predicate Closed(s: string) {
    forall j | 0 <= j < |s| :: !Opens(s[j..])
  }

  /** No `$` pattern in s. */
  predicate Inert(s: string) {
    forall j | 0 <= j < |s| - 1 :: s[j] == '$' ==> !IsDirective(s[j + 1])
  }

  predicate Safe(value: string) { Closed(value) && Inert(value) }

  /** As a replacement string, val puts in `shown`, wherever it stands. */
  ghost predicate ExpandsTo(val: string, shown: string) {
    forall before: string, matched: string, after: string :: Expand(val, before, matched, after) == shown
  }

  predicate WellFormed(ps: seq<Piece>) {
    forall i | 0 <= i < |ps| ::
      match ps[i]
      case Text(chars) => Closed(chars)
      case Hole(pre, key, post) => AllSpace(pre) && Identifier(key) && AllSpace(post)
  }

  /** The entries of a record: identifier keys, each once. */
  predicate IsRecord(vars: seq<Variable>) {
    && (forall i | 0 <= i < |vars| :: Identifier(vars[i].key))
    && (forall i, j | 0 <= i < j < |vars| :: vars[i].key != vars[j].key)
  }

  predicate AllSafe(vars: seq<Variable>) {
    forall i | 0 <= i < |vars| :: Safe(vars[i].value)
  }

  // ---------------------------------------------------------------- matching

  lemma {:induction false} SkipSpacesOver(w: string, rest: string)
    requires AllSpace(w) && (rest != "" ==> !IsSpace(rest[0]))
    ensures SkipSpaces(w + rest) == |w|
  {
    if w == "" {
      assert w + rest == rest;
    } else {
      assert (w + rest)[1..] == w[1..] + rest;
      SkipSpacesOver(w[1..], rest);
    }
  }

  lemma CloseMatches(post: string, rest: string)
    requires AllSpace(post)
    ensures MatchClose(post + ("}}" + rest)) == |post| + 2
  {
    var s := post + ("}}" + rest);
    SkipSpacesOver(post, "}}" + rest);
    assert s[|post|..] == "}}" + rest;
  }

  lemma BodyMatches(pre: string, key: string, post: string, rest: string)
    requires AllSpace(pre) && AllSpace(post) && Identifier(key)
    ensures MatchBody(pre + (key + (post + ("}}" + rest))), key) == |pre| + |key| + |post| + 2
  {
    hide MatchClose;
    var tail := post + ("}}" + rest);
    var s := pre + (key + tail);
    SkipSpacesOver(pre, key + tail);
    assert s[|pre|..] == key + tail;
    assert s[|pre| + |key|..] == tail;
    CloseMatches(post, rest);
  }

  lemma BodyMisses(pre: string, key: string, tail: string, k: string)
    requires AllSpace(pre) && Identifier(key) && Identifier(k) && k != key
    requires tail != "" && !IsWord(tail[0])
    ensures MatchBody(pre + (key + tail), k) == 0
  {
    var s := pre + (key + tail);
    SkipSpacesOver(pre, key + tail);
    assert s[|pre|..] == key + tail;
    if k <= key + tail {
      assert (key + tail)[|key|] == tail[0];
      assert |k| < |key|;
      assert s[|pre| + |k|..][0] == key[|k|];
    }
  }

  lemma ShowAppend(pre: string, key: string, post: string, rest: string)
    ensures Show(Hole(pre, key, post)) + rest == "{{" + (pre + (key + (post + ("}}" + rest))))
  {}

  lemma MatchAfterBraces(body: string, key: string)
    ensures MatchAt("{{" + body, key) == if MatchBody(body, key) > 0 then 2 + MatchBody(body, key) else 0
  {
    hide MatchBody;
    assert ("{{" + body)[2..] == body;
  }

  /** A placeholder is matched by its own key and by no other. */
  lemma HoleMatches(pre: string, key: string, post: string, rest: string, k: string)
    requires AllSpace(pre) && AllSpace(post) && Identifier(key) && Identifier(k)
    ensures var hole := Show(Hole(pre, key, post));
            MatchAt(hole + rest, k) == if k == key then |hole| else 0
  {
    hide MatchBody, MatchAt, SkipSpaces;
    var tail := post + ("}}" + rest);
    if k == key {
      BodyMatches(pre, key, post, rest);
    } else {
      assert tail[0] == if post == "" then '}' else post[0];
      BodyMisses(pre, key, tail, k);
    }
    ShowAppend(pre, key, post, rest);
    MatchAfterBraces(pre + (key + tail), k);
  }

  lemma CloseSplits(s: string)
    requires MatchClose(s) > 0
    ensures var n := MatchClose(s); n >= 2 && AllSpace(s[..n - 2]) && s[..n] == s[..n - 2] + "}}"
  {
    var a := SkipSpaces(s);
    assert s[..a + 2] == s[..a] + s[a..][..2];
  }

  lemma BodySplits(s: string, key: string)
    requires MatchBody(s, key) > 0
    ensures exists pre, post :: AllSpace(pre) && AllSpace(post)
              && s[..MatchBody(s, key)] == pre + (key + (post + "}}"))
  {
    hide MatchClose;
    var a := SkipSpaces(s);
    var u := s[a + |key|..];
    var m := MatchClose(u);
    CloseSplits(u);
    assert s[..a + |key| + m] == s[..a] + (key + u[..m]) by {
      assert s[a..] == key + u;
      assert s[..a + |key| + m] == s[..a] + (s[a..][..|key|] + u[..m]);
    }
  }

  lemma MatchSplits(s: string, key: string)
    requires MatchAt(s, key) > 0
    ensures exists pre, post :: AllSpace(pre) && AllSpace(post)
              && s[..MatchAt(s, key)] == Show(Hole(pre, key, post))
  {
    hide MatchBody;
    BodySplits(s[2..], key);
    var n := MatchBody(s[2..], key);
    assert s[..n + 2] == "{{" + s[2..][..n];
    var pre, post :| AllSpace(pre) && AllSpace(post) && s[2..][..n] == pre + (key + (post + "}}"));
    assert s[..n + 2] == Show(Hole(pre, key, post));
  }

  /** MatchAt computes the anchored match of the regular expression. */
  lemma MatchAtIsRegexMatch(s: string, key: string, n: nat)
    requires Identifier(key) && 0 < n <= |s|
    ensures MatchAt(s, key) == n
      <==> exists pre, post :: AllSpace(pre) && AllSpace(post) && s[..n] == Show(Hole(pre, key, post))
  {
    hide MatchAt;
    if MatchAt(s, key) == n {
      MatchSplits(s, key);
    }
    if pre, post :| AllSpace(pre) && AllSpace(post) && s[..n] == Show(Hole(pre, key, post)) {
      HoleMatches(pre, key, post, s[n..], key);
      assert s == s[..n] + s[n..];
    }
  }

  // ---------------------------------------------------------------- the scanner

  lemma {:induction false} DriveAppend(st: Scan, a: string, b: string)
    ensures Drive(st, a + b) == Drive(Drive(st, a), b)
    decreases |a|
  {
    if a == "" {
      assert a + b == b;
    } else {
      assert (a + b)[1..] == a[1..] + b;
      DriveAppend(Next(st, a[0]), a[1..], b);
    }
  }

  lemma {:induction false} DriveStays(st: Scan, s: string)
    requires st == Dead || st == Done || ((st == Lead || st == Trail) && AllSpace(s))
             || (st == Word && forall i | 0 <= i < |s| :: IsWord(s[i]))
    ensures Drive(st, s) == st
  {
    if s != "" {
      DriveStays(st, s[1..]);
    }
  }

  lemma DriveHole(pre: string, key: string, post: string)
    requires AllSpace(pre) && Identifier(key) && AllSpace(post)
    ensures Drive(Start, Show(Hole(pre, key, post))) == Done
  {
    var s := Show(Hole(pre, key, post));
    assert s == "{{" + (pre + (key + (post + "}}")));
    DriveAppend(Start, "{{", pre + (key + (post + "}}")));
    DriveAppend(Lead, pre, key + (post + "}}"));
    DriveStays(Lead, pre);
    DriveAppend(Lead, key, post + "}}");
    assert key == [key[0]] + key[1..];
    DriveStays(Word, key[1..]);
    assert Drive(Start, "{{") == Lead by {
      assert "{{"[1..] == "{";
    }
    DriveAppend(Word, post, "}}");
    if post != "" {
      DriveStays(Trail, post[1..]);
    }
    assert "}}"[1..] == "}";
    assert Drive(Close, "}") == Done;
  }

  /** Where a match starts, the text opens; so it opens already before the match is complete. */
  lemma MatchOpens(x: string, y: string, key: string)
    requires Identifier(key) && MatchAt(x + y, key) > 0
    ensures Opens(x)
  {
    hide MatchAt, Show, Next;
    var s, n := x + y, MatchAt(x + y, key);
    MatchSplits(s, key);
    var pre, post :| AllSpace(pre) && AllSpace(post) && s[..n] == Show(Hole(pre, key, post));
    DriveHole(pre, key, post);
    DriveAppend(Start, s[..n], s[n..]);
    DriveStays(Done, s[n..]);
    assert s[..n] + s[n..] == s;
    DriveAppend(Start, x, y);
    if Drive(Start, x) == Dead {
      DriveStays(Dead, y);
    }
  }

  // ---------------------------------------------------------------- one replacement

  lemma {:induction false} InertExpands(val: string, before: string, matched: string, after: string)
    requires Inert(val)
    ensures Expand(val, before, matched, after) == val
  {
    if val != "" {
      assert Inert(val[1..]) by {
        forall j | 0 <= j < |val[1..]| - 1 ensures val[1..][j] == '$' ==> !IsDirective(val[1..][j + 1]) {
          assert val[1..][j] == val[j + 1];
        }
      }
      InertExpands(val[1..], before, matched, after);
    }
  }

  /** A stretch in which no match starts is copied. */
  lemma {:induction false} CopyStretch(s: string, i: nat, n: nat, key: string, val: string)
    requires i + n <= |s|
    requires forall j | i <= j < i + n :: MatchFrom(s, j, key) == 0
    ensures ReplaceFrom(s, i, key, val) == s[i..i + n] + ReplaceFrom(s, i + n, key, val)
    decreases n
  {
    hide MatchFrom, Expand;
    if n == 0 {
      assert s[i..i] == "";
    } else {
      CopyStretch(s, i + 1, n - 1, key, val);
      var rest := ReplaceFrom(s, i + n, key, val);
      calc {
        ReplaceFrom(s, i, key, val);
        { assert MatchFrom(s, i, key) == 0; }
        [s[i]] + ReplaceFrom(s, i + 1, key, val);
        [s[i]] + (s[i + 1..i + n] + rest);
        ([s[i]] + s[i + 1..i + n]) + rest;
        { assert s[i..i + n] == [s[i]] + s[i + 1..i + n]; }
        s[i..i + n] + rest;
      }
    }
  }

  function FillOne(ps: seq<Piece>, key: string, val: string): seq<Piece> {
    if ps == [] then [] else
    [if ps[0].Hole? && ps[0].key == key then Text(val) else ps[0]] + FillOne(ps[1..], key, val)
  }

  lemma HoleBraces(p: Piece, i: nat)
    requires p.Hole? && WellFormed([p]) && 2 <= i < |Show(p)|
    ensures Show(p)[i] != '{' && (i == |Show(p)| - 1 ==> Show(p)[i] == '}')
  {
    assert [p][0] == p;
    var j := i - 2;
    if j < |p.pre| {
      assert Show(p)[i] == p.pre[j];
    } else if j < |p.pre| + |p.key| {
      assert Show(p)[i] == p.key[j - |p.pre|];
    } else if j < |p.pre| + |p.key| + |p.post| {
      assert Show(p)[i] == p.post[j - |p.pre| - |p.key|];
    }
  }

  lemma NoMatchInPiece(p: Piece, rest: string, key: string, j: nat)
    requires WellFormed([p]) && Identifier(key) && (p.Hole? ==> p.key != key) && j < |Show(p)|
    ensures MatchAt((Show(p) + rest)[j..], key) == 0
  {
    var s := Show(p) + rest;
    assert [p][0] == p;
    if p.Text? {
      assert s[j..] == p.chars[j..] + rest;
      if MatchAt(s[j..], key) > 0 {
        MatchOpens(p.chars[j..], rest, key);
      }
    } else if j == 0 {
      HoleMatches(p.pre, p.key, p.post, rest, key);
      assert s[0..] == s;
    } else {
      HoleBraces(p, |Show(p)| - 1);
      var i := if j + 1 < |Show(p)| then j + 1 else j;
      HoleBraces(p, i);
      assert s[i] != '{' && s[i] == s[j..][i - j];
    }
  }

  lemma MatchFromPiece(s: string, i: nat, p: Piece, rest: string)
    requires i <= |s| && s[i..] == Show(p) + rest && p.Hole? && WellFormed([p])
    ensures MatchFrom(s, i, p.key) == |Show(p)| >= 4
  {
    hide MatchAt;
    assert [p][0] == p;
    HoleMatches(p.pre, p.key, p.post, rest, p.key);
  }

  lemma ReplaceOverMatch(s: string, i: nat, p: Piece, rest: string, val: string)
    requires i <= |s| && s[i..] == Show(p) + rest && p.Hole? && WellFormed([p])
    ensures ReplaceFrom(s, i, p.key, val)
         == Expand(val, s[..i], Show(p), rest) + ReplaceFrom(s, i + |Show(p)|, p.key, val)
  {
    hide MatchFrom, Expand, Show, WellFormed;
    var n := |Show(p)|;
    MatchFromPiece(s, i, p, rest);
    assert s[i..i + n] == s[i..][..n] == Show(p) && s[i + n..] == s[i..][n..] == rest;
  }

  lemma ReplaceOverText(s: string, i: nat, p: Piece, rest: string, key: string, val: string)
    requires i <= |s| && s[i..] == Show(p) + rest
    requires WellFormed([p]) && Identifier(key) && (p.Hole? ==> p.key != key)
    ensures ReplaceFrom(s, i, key, val) == Show(p) + ReplaceFrom(s, i + |Show(p)|, key, val)
  {
    hide MatchAt, Show, Expand, WellFormed, ReplaceFrom;
    var n := |Show(p)|;
    forall j | i <= j < i + n ensures MatchFrom(s, j, key) == 0 {
      NoMatchInPiece(p, rest, key, j - i);
      assert s[j..] == s[i..][j - i..];
    }
    hide MatchFrom;
    CopyStretch(s, i, n, key, val);
    assert s[i..i + n] == s[i..][..n] == Show(p);
  }

  lemma ReplaceOverPiece(s: string, i: nat, p: Piece, rest: string, key: string, val: string)
    requires i <= |s| && s[i..] == Show(p) + rest
    requires WellFormed([p]) && Identifier(key)
    ensures ReplaceFrom(s, i, key, val)
         == (if p.Hole? && p.key == key then Expand(val, s[..i], Show(p), rest) else Show(p))
            + ReplaceFrom(s, i + |Show(p)|, key, val)
  {
    hide *;
    if p.Hole? && p.key == key {
      ReplaceOverMatch(s, i, p, rest, val);
    } else {
      ReplaceOverText(s, i, p, rest, key, val);
    }
  }

  lemma WellFormedCons(ps: seq<Piece>)
    requires WellFormed(ps) && ps != []
    ensures WellFormed([ps[0]]) && WellFormed(ps[1..])
  {}

  lemma RenderCons(p: Piece, ps: seq<Piece>)
    ensures Render([p] + ps) == Show(p) + Render(ps)
  {
    assert ([p] + ps)[1..] == ps;
  }

  lemma RenderHead(ps: seq<Piece>)
    requires ps != []
    ensures Render(ps) == Show(ps[0]) + Render(ps[1..])
  {}

  lemma FillHead(ps: seq<Piece>, key: string, val: string)
    requires ps != []
    ensures FillOne(ps, key, val)
         == [if ps[0].Hole? && ps[0].key == key then Text(val) else ps[0]] + FillOne(ps[1..], key, val)
  {}

  lemma FillCons(p: Piece, ps: seq<Piece>, key: string, val: string, vars: seq<Variable>)
    ensures FillOne([p] + ps, key, val)
         == [if p.Hole? && p.key == key then Text(val) else p] + FillOne(ps, key, val)
    ensures Substitute([p] + ps, vars)
         == [if p.Hole? && Lookup(vars, p.key).Some? then Text(Lookup(vars, p.key).value) else p]
            + Substitute(ps, vars)
  {
    assert ([p] + ps)[1..] == ps;
  }

  lemma ReplaceNothing(s: string, i: nat, key: string, val: string)
    requires i <= |s| && s[i..] == Render([])
    ensures ReplaceFrom(s, i, key, val) == Render(FillOne([], key, val)) == ""
  {}

  lemma DropPiece(s: string, i: nat, a: string, rest: string)
    requires i <= |s| && s[i..] == a + rest
    ensures i + |a| <= |s| && s[i + |a|..] == rest
  {
    assert s[i + |a|..] == s[i..][|a|..];
  }

  lemma ReplaceStep(s: string, i: nat, ps: seq<Piece>, key: string, val: string, shown: string)
    requires i <= |s| && ps != [] && s[i..] == Show(ps[0]) + Render(ps[1..])
    requires WellFormed([ps[0]]) && Identifier(key) && ExpandsTo(val, shown)
    requires i + |Show(ps[0])| <= |s|
    ensures ReplaceFrom(s, i + |Show(ps[0])|, key, val) == Render(FillOne(ps[1..], key, shown))
        ==> ReplaceFrom(s, i, key, val) == Render(FillOne(ps, key, shown))
  {
    hide *;
    ExpandsSo(val, shown, s[..i], Show(ps[0]), Render(ps[1..]));
    var p, rest := ps[0], Render(ps[1..]);
    var q := if p.Hole? && p.key == key then Text(shown) else p;
    FillHead(ps, key, shown);
    RenderCons(q, FillOne(ps[1..], key, shown));
    ReplaceOverPiece(s, i, p, rest, key, val);
    ShowText(shown);
  }

  lemma ExpandsSo(val: string, shown: string, before: string, matched: string, after: string)
    requires ExpandsTo(val, shown)
    ensures Expand(val, before, matched, after) == shown
  {}

  lemma InertExpandsTo(val: string)
    requires Inert(val)
    ensures ExpandsTo(val, val)
  {
    forall before: string, matched: string, after: string ensures Expand(val, before, matched, after) == val {
      InertExpands(val, before, matched, after);
    }
  }

  /** A replacement fills exactly the placeholders of its key, with what its value expands to. */
  lemma {:induction false} ReplaceFillsWith(s: string, i: nat, ps: seq<Piece>, key: string, val: string, shown: string)
    requires i <= |s| && s[i..] == Render(ps)
    requires WellFormed(ps) && Identifier(key) && ExpandsTo(val, shown)
    ensures ReplaceFrom(s, i, key, val) == Render(FillOne(ps, key, shown))
    decreases |ps|
  {
    hide *;
    if ps == [] {
      ReplaceNothing(s, i, key, val);
      FillNothing(key, shown);
    } else {
      WellFormedCons(ps);
      RenderHead(ps);
      DropPiece(s, i, Show(ps[0]), Render(ps[1..]));
      ReplaceFillsWith(s, i + |Show(ps[0])|, ps[1..], key, val, shown);
      ReplaceStep(s, i, ps, key, val, shown);
    }
  }

  lemma FillNothing(key: string, val: string)
    ensures Render(FillOne([], key, val)) == ""
  {}

  /** In particular, with a value without `$` patterns: whatever text surrounds the pieces. */
  lemma ReplaceFillsHoles(s: string, i: nat, ps: seq<Piece>, key: string, val: string)
    requires i <= |s| && s[i..] == Render(ps)
    requires WellFormed(ps) && Identifier(key) && Inert(val)
    ensures ReplaceFrom(s, i, key, val) == Render(FillOne(ps, key, val))
  {
    InertExpandsTo(val);
    hide *;
    ReplaceFillsWith(s, i, ps, key, val, val);
  }

  lemma ShowText(chars: string)
    ensures Show(Text(chars)) == chars
  {}

  // ---------------------------------------------------------------- the whole fold

  lemma {:induction false} FillOneWellFormed(ps: seq<Piece>, key: string, val: string)
    requires WellFormed(ps) && Closed(val)
    ensures WellFormed(FillOne(ps, key, val))
  {
    if ps != [] {
      FillOneWellFormed(ps[1..], key, val);
    }
  }

  lemma {:induction false} LookupMisses(vars: seq<Variable>, key: string)
    requires forall i | 0 <= i < |vars| :: vars[i].key != key
    ensures Lookup(vars, key) == None
  {
    if vars != [] {
      LookupMisses(vars[1..], key);
    }
  }

  lemma {:induction false} FillThenSubstitute(ps: seq<Piece>, vars: seq<Variable>)
    requires IsRecord(vars) && vars != []
    ensures Substitute(FillOne(ps, vars[0].key, vars[0].value), vars[1..]) == Substitute(ps, vars)
  {
    if ps != [] {
      FillThenSubstitute(ps[1..], vars);
      LookupMisses(vars[1..], vars[0].key);
      var f := FillOne(ps, vars[0].key, vars[0].value);
      assert f[1..] == FillOne(ps[1..], vars[0].key, vars[0].value);
    }
  }

  lemma {:induction false} SubstituteNothing(ps: seq<Piece>)
    ensures Substitute(ps, []) == ps
  {
    if ps != [] {
      SubstituteNothing(ps[1..]);
    }
  }

  /** The entries of `written` put in the values of vars. */
  ghost predicate Writes(written: seq<Variable>, vars: seq<Variable>) {
    && |written| == |vars|
    && forall i | 0 <= i < |vars| :: written[i].key == vars[i].key && ExpandsTo(written[i].value, vars[i].value)
  }

  /** The fold substitutes the values that the entries put in, when these leave no placeholder open. */
  lemma {:induction false} CompileExpands(ps: seq<Piece>, vars: seq<Variable>, written: seq<Variable>)
    requires WellFormed(ps) && IsRecord(vars) && Writes(written, vars)
    requires forall i | 0 <= i < |vars| :: Closed(vars[i].value)
    ensures Compile(Render(ps), written) == Render(Substitute(ps, vars))
    decreases |vars|
  {
    hide ExpandsTo, Closed, ReplaceFrom, Expand;
    if vars == [] {
      SubstituteNothing(ps);
    } else {
      var v := vars[0];
      ReplaceFillsWith(Render(ps), 0, ps, v.key, written[0].value, v.value);
      FillOneWellFormed(ps, v.key, v.value);
      CompileExpands(FillOne(ps, v.key, v.value), vars[1..], written[1..]);
      FillThenSubstitute(ps, vars);
    }
  }

  /** Main result: with safe values the fold is simultaneous substitution. */
  lemma CompileIsSubstitution(ps: seq<Piece>, vars: seq<Variable>)
    requires WellFormed(ps) && IsRecord(vars) && AllSafe(vars)
    ensures Compile(Render(ps), vars) == Render(Substitute(ps, vars))
  {
    forall i | 0 <= i < |vars| ensures ExpandsTo(vars[i].value, vars[i].value) {
      InertExpandsTo(vars[i].value);
    }
    CompileExpands(ps, vars, vars);
  }

  lemma {:induction false} LookupIsMembership(vars: seq<Variable>, key: string, value: string)
    requires IsRecord(vars)
    ensures Lookup(vars, key) == Some(value) <==> Variable(key, value) in vars
  {
    if vars != [] {
      LookupIsMembership(vars[1..], key, value);
      assert forall v :: v in vars <==> v == vars[0] || v in vars[1..];
    }
  }

  lemma {:induction false} SubstituteByLookup(ps: seq<Piece>, vars: seq<Variable>, others: seq<Variable>)
    requires forall key :: Lookup(vars, key) == Lookup(others, key)
    ensures Substitute(ps, vars) == Substitute(ps, others)
  {
    if ps != [] {
      SubstituteByLookup(ps[1..], vars, others);
    }
  }

  /** With safe values the order of the record's entries does not matter. */
  lemma CompileIgnoresOrder(ps: seq<Piece>, vars: seq<Variable>, others: seq<Variable>)
    requires WellFormed(ps) && IsRecord(vars) && IsRecord(others) && AllSafe(vars)
    requires forall v :: v in vars <==> v in others
    ensures Compile(Render(ps), vars) == Compile(Render(ps), others)
  {
    forall key ensures Lookup(vars, key) == Lookup(others, key) {
      if Lookup(vars, key).Some? {
        LookupIsMembership(vars, key, Lookup(vars, key).value);
        LookupIsMembership(others, key, Lookup(vars, key).value);
      } else if Lookup(others, key).Some? {
        LookupIsMembership(vars, key, Lookup(others, key).value);
        LookupIsMembership(others, key, Lookup(others, key).value);
      }
    }
    forall i | 0 <= i < |others| ensures Safe(others[i].value) {
      assert others[i] in vars;
    }
    SubstituteByLookup(ps, vars, others);
    CompileIsSubstitution(ps, vars);
    CompileIsSubstitution(ps, others);
  }

  // ---------------------------------------------------------------- templates as text

  function SplitSpaces(s: string): (r: (string, string))
    ensures s == r.0 + r.1 && AllSpace(r.0) && (r.1 != "" ==> !IsSpace(r.1[0]))
  {
    (s[..SkipSpaces(s)], s[SkipSpaces(s)..])
  }

  function SplitWord(s: string): (r: (string, string))
    ensures s == r.0 + r.1 && (r.1 != "" ==> !IsWord(r.1[0])) && (r.0 != "" ==> Identifier(r.0))
  {
    if s != "" && IsWord(s[0]) then
      var (word, rest) := SplitWord(s[1..]);
      ([s[0]] + word, rest)
    else
      ("", s)
  }

  /** The placeholder, for whatever key, that s starts with. */
  function HoleAt(s: string): Option<Piece> {
    if !("{{" <= s) then None else
    var (pre, r1) := SplitSpaces(s[2..]);
    var (key, r2) := SplitWord(r1);
    var (post, r3) := SplitSpaces(r2);
    if key != "" && "}}" <= r3 then Some(Hole(pre, key, post)) else None
  }

  lemma HoleAtShows(s: string)
    requires HoleAt(s).Some?
    ensures HoleAt(s).value.Hole? && WellFormed([HoleAt(s).value]) && Show(HoleAt(s).value) <= s
  {
    hide SplitSpaces, SplitWord;
    var (pre, r1) := SplitSpaces(s[2..]);
    var (key, r2) := SplitWord(r1);
    var (post, r3) := SplitSpaces(r2);
    assert r3 == "}}" + r3[2..];
    ShowAppend(pre, key, post, r3[2..]);
    assert s == "{{" + s[2..];
  }

  /** Split a template into its placeholders and the text between them. */
  function Parse(s: string): seq<Piece>
    decreases |s|
  {
    if s == "" then [] else
    if HoleAt(s).Some? then
      HoleAtShows(s);
      [HoleAt(s).value] + Parse(s[|Show(HoleAt(s).value)|..])
    else
      var r := Parse(s[1..]);
      if r != [] && r[0].Text? then [Text([s[0]] + r[0].chars)] + r[1..] else [Text([s[0]])] + r
  }

  lemma {:induction false} RenderParse(s: string)
    ensures Render(Parse(s)) == s
    decreases |s|
  {
    hide HoleAt;
    if s == "" {
    } else if HoleAt(s).Some? {
      HoleAtShows(s);
      var h := HoleAt(s).value;
      RenderParse(s[|Show(h)|..]);
      RenderCons(h, Parse(s[|Show(h)|..]));
      assert s == Show(h) + s[|Show(h)|..];
    } else {
      RenderParse(s[1..]);
      RenderText(s[0], Parse(s[1..]));
    }
  }

  lemma RenderText(c: char, r: seq<Piece>)
    ensures r == [] || !r[0].Text? ==> Render([Text([c])] + r) == [c] + Render(r)
    ensures r != [] && r[0].Text? ==> Render([Text([c] + r[0].chars)] + r[1..]) == [c] + Render(r)
  {
    if r != [] && r[0].Text? {
      RenderCons(Text([c] + r[0].chars), r[1..]);
      RenderHead(r);
      ShowText(r[0].chars);
      ShowText([c] + r[0].chars);
      hide *;
      Associate([c], r[0].chars, Render(r[1..]));
    } else {
      RenderCons(Text([c]), r);
    }
  }

  lemma Associate(a: string, b: string, c: string)
    ensures (a + b) + c == a + (b + c)
  {}

  /** The main result for a template given as text: its text pieces must leave no placeholder open. */
  lemma CompileTemplate(template: string, vars: seq<Variable>)
    requires WellFormed(Parse(template)) && IsRecord(vars) && AllSafe(vars)
    ensures Compile(template, vars) == Render(Substitute(Parse(template), vars))
  {
    hide *;
    RenderParse(template);
    CompileIsSubstitution(Parse(template), vars);
  }
}
