/**
 The scanner of tools/ci/web_css_classes_check.py: it reads class expressions with nested
 strings, templates, holes and comments. The source runs one loop over a stack of frames.
 The model proves that loop equal to a recursive descent over the text, and that every
 token it reports stands verbatim in the file, outside the holes of its literal.
 */
module ClassScanner {
  import opened Prelude

  /** A half-open stretch of the text that belongs to an embedded expression. */
  datatype Hole = Hole(start: int, end: int)

  /** A piece of class text with its offset. The source drops the holes once they are blanked. */
  datatype Literal = Literal(text: string, offset: nat, holes: seq<Hole>)

  // ----- strings and comments -----

  /** The index of the quote that closes a string, if any. */
  function ClosingQuote(content: string, i: nat, quote: char): (r: Option<nat>)
    ensures r.Some? ==> i <= r.value < |content| && content[r.value] == quote
    decreases |content| - i
  {
    if i >= |content| then None
    else if content[i] == '\\' then ClosingQuote(content, i + 2, quote)
    else if content[i] == quote then Some(i)
    else ClosingQuote(content, i + 1, quote)
  }

  datatype Quoted = Quoted(next: nat, literal: Literal)

  function QuotedString(content: string, start: nat, quote: char): (r: Quoted)
    requires start < |content|
    ensures start < r.next <= |content|
  {
    match ClosingQuote(content, start + 1, quote)
    case Some(i) => Quoted(i + 1, Literal(content[start + 1..i], start + 1, []))
    case None => Quoted(|content|, Literal(content[start + 1..], start + 1, []))
  }

  method ScanQuotedString(content: string, start: nat, quote: char) returns (r: Quoted)
    requires start < |content|
    ensures r == QuotedString(content, start, quote)
  {
    var i := start + 1;
    while i < |content|
      invariant start < i && ClosingQuote(content, i, quote) == ClosingQuote(content, start + 1, quote)
      decreases |content| - i
    {
      if content[i] == '\\' {
        i := i + 2;
      } else if content[i] == quote {
        return Quoted(i + 1, Literal(content[start + 1..i], start + 1, []));
      } else {
        i := i + 1;
      }
    }
    return Quoted(|content|, Literal(content[start + 1..], start + 1, []));
  }

  predicate OccursAt(content: string, pattern: string, k: nat) {
    k + |pattern| <= |content| && content[k..k + |pattern|] == pattern
  }

  /** str.find: the first occurrence at or after a position. */
  function Find(content: string, pattern: string, from: nat): (r: Option<nat>)
    ensures r.Some? ==> from <= r.value && OccursAt(content, pattern, r.value)
    ensures forall k :: from <= k && OccursAt(content, pattern, k) ==> r.Some? && r.value <= k
    decreases |content| - from
  {
    if from + |pattern| > |content| then None
    else if OccursAt(content, pattern, from) then Some(from)
    else Find(content, pattern, from + 1)
  }

  /** The position after a comment, or after a slash that opens none. */
  function CommentEnd(content: string, start: nat): (next: nat)
    requires start < |content|
    ensures start < next <= |content|
  {
    if start + 1 >= |content| then |content|
    else if content[start + 1] == '/' then
      match Find(content, "\n", start + 2)
      case Some(nl) => nl
      case None => |content|
    else if content[start + 1] == '*' then
      match Find(content, "*/", start + 2)
      case Some(end) => end + 2
      case None => |content|
    else start + 1
  }

  /** A pattern occurs at a position, and nowhere before it from a given position on. */
  ghost predicate IsFirst(content: string, pattern: string, from: nat, k: nat) {
    from <= k && OccursAt(content, pattern, k) && forall m :: from <= m < k ==> !OccursAt(content, pattern, m)
  }

  ghost predicate Never(content: string, pattern: string, from: nat) {
    forall m: nat :: from <= m ==> !OccursAt(content, pattern, m)
  }

  lemma SlashPairs(content: string, start: nat)
    requires start < |content| && content[start] == '/'
    ensures OccursAt(content, "/*", start) <==> start + 1 < |content| && content[start + 1] == '*'
    ensures OccursAt(content, "//", start) <==> start + 1 < |content| && content[start + 1] == '/'
  {
    if start + 1 < |content| {
      var pair := content[start..start + 2];
      assert pair == [content[start], content[start + 1]];
    }
  }

  /** A block comment ends behind its first closing mark, a line comment at its newline; any other slash is itself. */
  lemma CommentEndsAt(content: string, start: nat, e: nat)
    requires start < |content| && content[start] == '/'
    ensures OccursAt(content, "/*", start) && IsFirst(content, "*/", start + 2, e) ==>
        CommentEnd(content, start) == e + 2
    ensures OccursAt(content, "/*", start) && Never(content, "*/", start + 2) ==>
        CommentEnd(content, start) == |content|
    ensures OccursAt(content, "//", start) && IsFirst(content, "\n", start + 2, e) ==> CommentEnd(content, start) == e
    ensures OccursAt(content, "//", start) && Never(content, "\n", start + 2) ==>
        CommentEnd(content, start) == |content|
    ensures !OccursAt(content, "/*", start) && !OccursAt(content, "//", start) ==>
        CommentEnd(content, start) == start + 1
  {
    SlashPairs(content, start);
  }

  /** A position is escaped by an odd run of backslashes before it, counted back to where the text began. */
  ghost predicate IsEscaped(content: string, from: nat, k: nat)
    requires from <= k <= |content|
    decreases k
  {
    k > from && content[k - 1] == '\\' && !IsEscaped(content, from, k - 1)
  }

  /** A string is closed by the first of its quotes that no backslash escapes. */
  ghost predicate Closes(content: string, from: nat, quote: char, k: nat) {
    && from <= k < |content| && content[k] == quote && !IsEscaped(content, from, k)
    && forall m :: from <= m < k && content[m] == quote ==> IsEscaped(content, from, m)
  }

  /** Reading forward over escapes finds what counting backward does. */
  lemma {:induction false} ClosingQuoteCloses(content: string, from: nat, i: nat, quote: char)
    requires from <= i && quote != '\\'
    requires i <= |content| ==> !IsEscaped(content, from, i)
    requires forall m :: from <= m < i && m < |content| && content[m] == quote ==> IsEscaped(content, from, m)
    ensures var r := ClosingQuote(content, i, quote);
      && (r.Some? ==> Closes(content, from, quote, r.value))
      && (r.None? ==> forall m :: from <= m < |content| && content[m] == quote ==> IsEscaped(content, from, m))
    decreases |content| - i
  {
    if i < |content| {
      if content[i] == '\\' {
        assert IsEscaped(content, from, i + 1);
        ClosingQuoteCloses(content, from, i + 2, quote);
      } else if content[i] != quote {
        ClosingQuoteCloses(content, from, i + 1, quote);
      }
    }
  }

  ghost predicate NeverCloses(content: string, from: nat, quote: char) {
    forall m :: from <= m < |content| && content[m] == quote ==> IsEscaped(content, from, m)
  }

  lemma ClosingQuoteIff(content: string, from: nat, quote: char, k: nat)
    requires quote != '\\'
    ensures ClosingQuote(content, from, quote) == Some(k) <==> Closes(content, from, quote, k)
    ensures ClosingQuote(content, from, quote).None? <==> NeverCloses(content, from, quote)
  {
    ClosingQuoteCloses(content, from, from, quote);
  }

  // ----- blanking -----

  predicate Covered(holes: seq<Hole>, at: int) {
    exists k :: 0 <= k < |holes| && holes[k].start <= at < holes[k].end
  }

  function Blanked(raw: string, holes: seq<Hole>, base: int): (r: string)
    ensures |r| == |raw|
  {
    seq(|raw|, k requires 0 <= k < |raw| => if Covered(holes, base + k) then ' ' else raw[k])
  }

  /** Blanks every hole of a stretch of text; what a hole has outside the stretch is clipped. */
  method BlankHoles(raw: string, holes: seq<Hole>, base: int) returns (r: string)
    ensures r == Blanked(raw, holes, base)
  {
    if holes == [] {
      NoHoles(raw, base);
      return raw;
    }
    var chars := new char[|raw|](i requires 0 <= i < |raw| => raw[i]);
    for k := 0 to |holes|
      invariant forall i :: 0 <= i < |raw| ==> chars[i] == if Covered(holes[..k], base + i) then ' ' else raw[i]
    {
      var from, to := Max(0, holes[k].start - base), Min(|raw|, holes[k].end - base);
      var idx := from;
      while idx < to
        invariant from <= idx && (idx <= to || idx == from)
        invariant forall i :: 0 <= i < |raw| ==>
          chars[i] == if from <= i < idx || Covered(holes[..k], base + i) then ' ' else raw[i]
      {
        chars[idx] := ' ';
        idx := idx + 1;
      }
      forall i | 0 <= i < |raw| ensures chars[i] == if Covered(holes[..k + 1], base + i) then ' ' else raw[i] {
        CoveredByOneMore(holes, k, base + i);
      }
    }
    assert holes[..|holes|] == holes;
    r := chars[..];
  }

  lemma NoHoles(raw: string, base: int)
    ensures Blanked(raw, [], base) == raw
  {
    var r := Blanked(raw, [], base);
    forall k | 0 <= k < |raw| ensures r[k] == raw[k] {
      assert !Covered([], base + k);
    }
  }

  lemma CoveredByOneMore(holes: seq<Hole>, k: nat, at: int)
    requires k < |holes|
    ensures Covered(holes[..k + 1], at) <==> Covered(holes[..k], at) || holes[k].start <= at < holes[k].end
  {
    if Covered(holes[..k], at) {
      var j :| 0 <= j < k && holes[..k][j].start <= at < holes[..k][j].end;
      assert holes[..k + 1][j] == holes[..k][j];
    }
    if holes[k].start <= at < holes[k].end {
      assert holes[..k + 1][k] == holes[k];
    }
    if Covered(holes[..k + 1], at) {
      var j :| 0 <= j < k + 1 && holes[..k + 1][j].start <= at < holes[..k + 1][j].end;
      assert j < k ==> holes[..k][j] == holes[..k + 1][j];
    }
  }

  // ----- the recursive descent -----

  /** Where a construct ends, the literals inside it in order of completion, and whether it was closed. */
  datatype Parsed = Parsed(end: nat, literals: seq<Literal>, closed: bool)

  function After(literals: seq<Literal>, rest: Parsed): Parsed {
    Parsed(rest.end, literals + rest.literals, rest.closed)
  }

  function HoleAt(content: string, i: nat): (r: bool)
    requires i < |content|
    ensures r <==> OccursAt(content, "${", i)
  {
    assert i + 1 < |content| ==> content[i..i + 2] == [content[i], content[i + 1]];
    content[i] == '$' && i + 1 < |content| && content[i + 1] == '{'
  }

  /** An expression from i to behind its closing brace. */
  function Expression(content: string, i: nat): (r: Parsed)
    ensures i <= r.end && (r.closed ==> i < r.end <= |content|)
    decreases |content| - i
  {
    if i >= |content| then Parsed(i, [], false)
    else if content[i] == '\'' || content[i] == '"' then
      var q := QuotedString(content, i, content[i]);
      After([q.literal], Expression(content, q.next))
    else if content[i] == '`' then
      var t := Template(content, i + 1, i + 1, []);
      if t.closed then After(t.literals, Expression(content, t.end)) else t
    else if content[i] == '{' then
      var e := Expression(content, i + 1);
      if e.closed then After(e.literals, Expression(content, e.end)) else e
    else if content[i] == '}' then Parsed(i + 1, [], true)
    else if content[i] == '/' then Expression(content, CommentEnd(content, i))
    else Expression(content, i + 1)
  }

  /** A template literal that began at start, from i to behind its closing backtick. */
  function Template(content: string, i: nat, start: nat, holes: seq<Hole>): (r: Parsed)
    requires start <= i
    ensures i <= r.end && (r.closed ==> i < r.end <= |content|)
    decreases |content| - i
  {
    if i >= |content| then Parsed(i, [], false)
    else if content[i] == '\\' then Template(content, i + 2, start, holes)
    else if HoleAt(content, i) then
      var e := Expression(content, i + 2);
      if e.closed then After(e.literals, Template(content, e.end, start, holes + [Hole(i, e.end)])) else e
    else if content[i] == '`' then
      Parsed(i + 1, [Literal(Blanked(content[start..i], holes, start), start, holes)], true)
    else Template(content, i + 1, start, holes)
  }

  /** A comment contributes nothing: the expression goes on right behind it, if it ends at all. */
  lemma CommentsContributeNothing(content: string, i: nat, e: nat)
    requires i < |content| && content[i] == '/'
    ensures OccursAt(content, "/*", i) && IsFirst(content, "*/", i + 2, e) ==>
        Expression(content, i) == Expression(content, e + 2)
    ensures OccursAt(content, "//", i) && IsFirst(content, "\n", i + 2, e) ==>
        Expression(content, i) == Expression(content, e)
    ensures OccursAt(content, "/*", i) && Never(content, "*/", i + 2) ==>
        Expression(content, i) == Parsed(|content|, [], false)
    ensures OccursAt(content, "//", i) && Never(content, "\n", i + 2) ==>
        Expression(content, i) == Parsed(|content|, [], false)
    ensures !OccursAt(content, "/*", i) && !OccursAt(content, "//", i) ==>
        Expression(content, i) == Expression(content, i + 1)
  {
    CommentEndsAt(content, i, e);
  }

  /** A string contributes the text between its quotes; one that is never closed takes the rest of the text. */
  lemma StringsContributeText(content: string, i: nat, k: nat)
    requires i < |content| && (content[i] == '\'' || content[i] == '"')
    ensures Closes(content, i + 1, content[i], k) ==>
        Expression(content, i) == After([Literal(content[i + 1..k], i + 1, [])], Expression(content, k + 1))
    ensures NeverCloses(content, i + 1, content[i]) ==>
        Expression(content, i) == Parsed(|content|, [Literal(content[i + 1..], i + 1, [])], false)
  {
    ClosingQuoteIff(content, i + 1, content[i], k);
  }

  // ----- the stack machine -----

  datatype Frame = ExprFrame(isHole: bool, holeStart: int) | TemplateFrame(start: nat, holes: seq<Hole>)

  const PLAIN_FRAME := ExprFrame(false, -1)

  /** The stack after the expression frame on top of it closed at end. */
  function PopExpr(stack: seq<Frame>, end: nat): seq<Frame>
    requires stack != [] && stack[|stack| - 1].ExprFrame?
  {
    var popped, rest := stack[|stack| - 1], stack[..|stack| - 1];
    if popped.isHole && rest != [] && rest[|rest| - 1].TemplateFrame? then
      var t := rest[|rest| - 1];
      rest[..|rest| - 1] + [TemplateFrame(t.start, t.holes + [Hole(popped.holeStart, end)])]
    else rest
  }

  /** Templates on the stack begin at or before the reading position. */
  predicate Behind(stack: seq<Frame>, i: nat) {
    forall k :: 0 <= k < |stack| && stack[k].TemplateFrame? ==> stack[k].start <= i
  }

  /** What a stack still stands for: parse the top frame to its end, then the frames below it. */
  ghost function Unwind(content: string, i: nat, stack: seq<Frame>): Parsed
    requires Behind(stack, i)
    decreases |stack|
  {
    if stack == [] then Parsed(i, [], true)
    else
      var top, rest := stack[|stack| - 1], stack[..|stack| - 1];
      var p := if top.ExprFrame? then Expression(content, i) else Template(content, i, top.start, top.holes);
      if !p.closed then p
      else
        var below := if top.ExprFrame? then PopExpr(stack, p.end) else rest;
        assert Behind(below, p.end);
        After(p.literals, Unwind(content, p.end, below))
  }

  /** A hole frame sits on its template, a template on an expression, a plain brace on an expression. */
  predicate Nested(stack: seq<Frame>) {
    && (|stack| > 0 ==> stack[0].ExprFrame? && !stack[0].isHole)
    && (forall k :: 0 < k < |stack| ==>
         if stack[k].TemplateFrame? || !stack[k].isHole then stack[k - 1].ExprFrame? else stack[k - 1].TemplateFrame?)
  }

  /** Everything the machine changes: position, stack and the literals found. */
  datatype State = State(i: nat, stack: seq<Frame>, literals: seq<Literal>)

  predicate OnExpr(content: string, s: State) {
    Good(s) && s.i < |content| && s.stack != [] && Top(s).ExprFrame?
  }

  predicate OnTemplate(content: string, s: State) {
    Good(s) && s.i < |content| && s.stack != [] && Top(s).TemplateFrame?
  }

  predicate Good(s: State) {
    Nested(s.stack) && Behind(s.stack, s.i)
  }

  function Top(s: State): Frame
    requires s.stack != []
  {
    s.stack[|s.stack| - 1]
  }

  /** One step inside an expression frame. */
  function ExprStep(content: string, s: State): State
    requires OnExpr(content, s)
  {
    var c := content[s.i];
    if c == '\'' || c == '"' then
      var q := QuotedString(content, s.i, c);
      s.(i := q.next, literals := s.literals + [q.literal])
    else if c == '`' then s.(i := s.i + 1, stack := s.stack + [TemplateFrame(s.i + 1, [])])
    else if c == '{' then s.(i := s.i + 1, stack := s.stack + [PLAIN_FRAME])
    else if c == '}' then s.(i := s.i + 1, stack := PopExpr(s.stack, s.i + 1))
    else if c == '/' then s.(i := CommentEnd(content, s.i))
    else s.(i := s.i + 1)
  }

  /** One step inside a template literal. */
  function TemplateStep(content: string, s: State): State
    requires OnTemplate(content, s)
  {
    var c, t := content[s.i], Top(s);
    if c == '\\' then s.(i := s.i + 2)
    else if HoleAt(content, s.i) then s.(i := s.i + 2, stack := s.stack + [ExprFrame(true, s.i)])
    else if c == '`' then
      var literal := Literal(Blanked(content[t.start..s.i], t.holes, t.start), t.start, t.holes);
      State(s.i + 1, s.stack[..|s.stack| - 1], s.literals + [literal])
    else s.(i := s.i + 1)
  }

  /** What the machine will have found when it stops. */
  ghost function Outcome(content: string, s: State): Parsed
    requires Good(s)
  {
    After(s.literals, Unwind(content, s.i, s.stack))
  }

  class Scanner {
    const content: string
    var i: nat
    var stack: seq<Frame>
    var literals: seq<Literal>

    function Now(): State
      reads this
    {
      State(i, stack, literals)
    }

    /** parse_expression starts behind an opening brace. */
    constructor (content: string, start: nat)
      ensures this.content == content && Now() == State(start + 1, [PLAIN_FRAME], [])
    {
      this.content := content;
      i, stack, literals := start + 1, [PLAIN_FRAME], [];
    }

    method StepExpr()
      requires OnExpr(content, Now())
      modifies this
      ensures Now() == ExprStep(content, old(Now())) && Advances(content, old(Now()), Now())
    {
      ExprStepAdvances(content, Now());
      var c := content[i];
      if c == '\'' || c == '"' {
        var q := ScanQuotedString(content, i, c);
        literals := literals + [q.literal];
        i := q.next;
      } else if c == '`' {
        stack := stack + [TemplateFrame(i + 1, [])];
        i := i + 1;
      } else if c == '{' {
        stack := stack + [PLAIN_FRAME];
        i := i + 1;
      } else if c == '}' {
        stack := PopExpr(stack, i + 1);
        i := i + 1;
      } else if c == '/' {
        i := CommentEnd(content, i);
      } else {
        i := i + 1;
      }
    }

    method StepTemplate()
      requires OnTemplate(content, Now())
      modifies this
      ensures Now() == TemplateStep(content, old(Now())) && Advances(content, old(Now()), Now())
    {
      TemplateStepAdvances(content, Now());
      var c := content[i];
      if c == '\\' {
        i := i + 2;
      } else if HoleAt(content, i) {
        stack := stack + [ExprFrame(true, i)];
        i := i + 2;
      } else if c == '`' {
        var popped := stack[|stack| - 1];
        stack := stack[..|stack| - 1];
        var blanked := BlankHoles(content[popped.start..i], popped.holes, popped.start);
        literals := literals + [Literal(blanked, popped.start, popped.holes)];
        i := i + 1;
      } else {
        i := i + 1;
      }
    }

    /** The main loop: it always advances, and it finds what the recursive descent finds. */
    method Run()
      requires Good(Now())
      modifies this
      ensures var p := Outcome(content, old(Now()));
        i == p.end && literals == p.literals
    {
      while stack != [] && i < |content|
        invariant Good(Now()) && Outcome(content, Now()) == Outcome(content, old(Now()))
        decreases |content| - i
      {
        if stack[|stack| - 1].ExprFrame? {
          StepExpr();
        } else {
          StepTemplate();
        }
      }
      StoppedOutcome(content, Now());
    }
  }

  lemma StoppedOutcome(content: string, s: State)
    requires Good(s) && (s.stack == [] || s.i >= |content|)
    ensures Outcome(content, s).end == s.i && Outcome(content, s).literals == s.literals
  {
  }

  /** A step moves on, keeps the frames nested, and loses nothing of the outcome. */
  ghost predicate Advances(content: string, s: State, s': State) {
    s.i < s'.i && Good(s) && Good(s') && Outcome(content, s') == Outcome(content, s)
  }

  lemma AfterTwice(a: seq<Literal>, b: seq<Literal>, p: Parsed)
    ensures After(a, After(b, p)) == After(a + b, p)
  {
  }

  lemma ExprStepAdvances(content: string, s: State)
    requires OnExpr(content, s)
    ensures Advances(content, s, ExprStep(content, s))
  {
    var c := content[s.i];
    if c == '\'' || c == '"' {
      StringAdvances(content, s);
    } else if c == '`' {
      OpenTemplateAdvances(content, s);
    } else if c == '{' {
      OpenBraceAdvances(content, s);
    } else {
      OtherAdvances(content, s);
    }
  }

  lemma StringAdvances(content: string, s: State)
    requires OnExpr(content, s) && (content[s.i] == '\'' || content[s.i] == '"')
    ensures Advances(content, s, ExprStep(content, s))
  {
    StepString(content, s.i, s.stack);
    Progress(content, s, ExprStep(content, s), [QuotedString(content, s.i, content[s.i]).literal]);
  }

  lemma OtherAdvances(content: string, s: State)
    requires OnExpr(content, s)
    requires content[s.i] != '\'' && content[s.i] != '"' && content[s.i] != '`' && content[s.i] != '{'
    ensures Advances(content, s, ExprStep(content, s))
  {
    if content[s.i] == '}' {
      BraceAdvances(content, s);
    } else {
      StepOtherExpr(content, s.i, s.stack);
      Progress(content, s, ExprStep(content, s), []);
    }
  }

  lemma BraceAdvances(content: string, s: State)
    requires OnExpr(content, s) && content[s.i] == '}'
    ensures Advances(content, s, ExprStep(content, s))
  {
    var s' := s.(i := s.i + 1, stack := PopExpr(s.stack, s.i + 1));
    assert ExprStep(content, s) == s';
    PopKeepsNested(s.stack, s.i);
    StepCloseBrace(content, s.i, s.stack);
    Progress(content, s, s', []);
  }

  lemma OpenTemplateAdvances(content: string, s: State)
    requires OnExpr(content, s) && content[s.i] == '`'
    ensures Advances(content, s, ExprStep(content, s))
  {
    var s' := s.(i := s.i + 1, stack := s.stack + [TemplateFrame(s.i + 1, [])]);
    assert ExprStep(content, s) == s';
    PushKeepsNested(s.stack, TemplateFrame(s.i + 1, []), s.i, s.i + 1);
    StepOpenTemplate(content, s.i, s.stack);
    Progress(content, s, s', []);
  }

  lemma OpenBraceAdvances(content: string, s: State)
    requires OnExpr(content, s) && content[s.i] == '{'
    ensures Advances(content, s, ExprStep(content, s))
  {
    var s' := s.(i := s.i + 1, stack := s.stack + [PLAIN_FRAME]);
    assert ExprStep(content, s) == s';
    PushKeepsNested(s.stack, PLAIN_FRAME, s.i, s.i + 1);
    StepOpenBrace(content, s.i, s.stack);
    Progress(content, s, s', []);
  }

  lemma TemplateStepAdvances(content: string, s: State)
    requires OnTemplate(content, s)
    ensures Advances(content, s, TemplateStep(content, s))
  {
    var c := content[s.i];
    var s' := TemplateStep(content, s);
    if c != '\\' && HoleAt(content, s.i) {
      HoleAdvances(content, s);
    } else if c == '`' {
      CloseAdvances(content, s);
    } else {
      StepOtherTemplate(content, s.i, s.stack);
      Progress(content, s, s', []);
    }
  }

  lemma HoleAdvances(content: string, s: State)
    requires OnTemplate(content, s) && content[s.i] != '\\' && HoleAt(content, s.i)
    ensures Advances(content, s, TemplateStep(content, s))
  {
    var s' := s.(i := s.i + 2, stack := s.stack + [ExprFrame(true, s.i)]);
    assert TemplateStep(content, s) == s';
    assert Good(s') by {
      PushKeepsNested(s.stack, ExprFrame(true, s.i), s.i, s.i + 2);
    }
    assert Unwind(content, s.i, s.stack) == After([], Unwind(content, s'.i, s'.stack)) by {
      StepOpenHole(content, s.i, s.stack);
    }
    Progress(content, s, s', []);
  }

  lemma CloseAdvances(content: string, s: State)
    requires OnTemplate(content, s) && content[s.i] == '`'
    ensures Advances(content, s, TemplateStep(content, s))
  {
    var t := Top(s);
    StepCloseTemplate(content, s.i, s.stack);
    Progress(content, s, TemplateStep(content, s),
        [Literal(Blanked(content[t.start..s.i], t.holes, t.start), t.start, t.holes)]);
  }

  /** A step advances if what it adds to the literals is what it takes from the text. */
  lemma Progress(content: string, s: State, s': State, found: seq<Literal>)
    requires Good(s) && Good(s') && s.i < s'.i && s'.literals == s.literals + found
    requires Unwind(content, s.i, s.stack) == After(found, Unwind(content, s'.i, s'.stack))
    ensures Advances(content, s, s')
  {
    AfterTwice(s.literals, found, Unwind(content, s'.i, s'.stack));
  }

  lemma PushKeepsNested(stack: seq<Frame>, frame: Frame, i: nat, i': nat)
    requires Nested(stack) && Behind(stack, i) && stack != [] && i <= i'
    requires if frame.TemplateFrame? then frame.start <= i' && stack[|stack| - 1].ExprFrame?
      else if frame.isHole then stack[|stack| - 1].TemplateFrame? else stack[|stack| - 1].ExprFrame?
    ensures Nested(stack + [frame]) && Behind(stack + [frame], i')
  {
  }

  lemma StepCloseBrace(content: string, i: nat, stack: seq<Frame>)
    requires Behind(stack, i) && i < |content| && stack != [] && stack[|stack| - 1].ExprFrame? && content[i] == '}'
    ensures Behind(PopExpr(stack, i + 1), i + 1)
    ensures Unwind(content, i, stack) == After([], Unwind(content, i + 1, PopExpr(stack, i + 1)))
  {
    assert Expression(content, i) == Parsed(i + 1, [], true);
  }

  lemma StepOtherExpr(content: string, i: nat, stack: seq<Frame>)
    requires Behind(stack, i) && i < |content| && stack != [] && stack[|stack| - 1].ExprFrame?
    requires content[i] != '\'' && content[i] != '"' && content[i] != '`' && content[i] != '{' && content[i] != '}'
    ensures var next := if content[i] == '/' then CommentEnd(content, i) else i + 1;
      Unwind(content, i, stack) == After([], Unwind(content, next, stack))
  {
    var next := if content[i] == '/' then CommentEnd(content, i) else i + 1;
    assert Expression(content, i) == Expression(content, next);
  }

  lemma StepCloseTemplate(content: string, i: nat, stack: seq<Frame>)
    requires Behind(stack, i) && i < |content| && stack != [] && stack[|stack| - 1].TemplateFrame? && content[i] == '`'
    ensures var t := stack[|stack| - 1];
      var literal := Literal(Blanked(content[t.start..i], t.holes, t.start), t.start, t.holes);
      Unwind(content, i, stack) == After([literal], Unwind(content, i + 1, stack[..|stack| - 1]))
  {
  }

  lemma StepOtherTemplate(content: string, i: nat, stack: seq<Frame>)
    requires Behind(stack, i) && i < |content| && stack != [] && stack[|stack| - 1].TemplateFrame?
    requires content[i] == '\\' || (content[i] != '`' && !HoleAt(content, i))
    ensures var next := if content[i] == '\\' then i + 2 else i + 1;
      Unwind(content, i, stack) == After([], Unwind(content, next, stack))
  {
    var next := if content[i] == '\\' then i + 2 else i + 1;
    var t := stack[|stack| - 1];
    assert Template(content, i, t.start, t.holes) == Template(content, next, t.start, t.holes);
  }

  lemma PopKeepsNested(stack: seq<Frame>, i: nat)
    requires Nested(stack) && Behind(stack, i) && stack != [] && stack[|stack| - 1].ExprFrame?
    ensures Nested(PopExpr(stack, i + 1)) && Behind(PopExpr(stack, i + 1), i + 1)
  {
    var below := PopExpr(stack, i + 1);
    assert forall k :: 0 <= k < |below| ==>
      (below[k].ExprFrame? <==> stack[k].ExprFrame?) && (below[k].ExprFrame? ==> below[k] == stack[k]);
  }

  lemma StepString(content: string, i: nat, stack: seq<Frame>)
    requires Behind(stack, i) && i < |content| && stack != [] && stack[|stack| - 1].ExprFrame?
    requires content[i] == '\'' || content[i] == '"'
    ensures var q := QuotedString(content, i, content[i]);
      Unwind(content, i, stack) == After([q.literal], Unwind(content, q.next, stack))
  {
    var q := QuotedString(content, i, content[i]);
    var e := Expression(content, q.next);
    if e.closed {
      AfterTwice([q.literal], e.literals, Unwind(content, e.end, PopExpr(stack, e.end)));
    }
  }

  lemma StepOpenTemplate(content: string, i: nat, stack: seq<Frame>)
    requires Behind(stack, i) && i < |content| && stack != [] && stack[|stack| - 1].ExprFrame? && content[i] == '`'
    ensures Unwind(content, i, stack) == After([], Unwind(content, i + 1, stack + [TemplateFrame(i + 1, [])]))
  {
    var pushed := stack + [TemplateFrame(i + 1, [])];
    assert pushed[..|pushed| - 1] == stack;
    var t := Template(content, i + 1, i + 1, []);
    if t.closed {
      var e := Expression(content, t.end);
      if e.closed {
        AfterTwice(t.literals, e.literals, Unwind(content, e.end, PopExpr(stack, e.end)));
      }
    }
  }

  lemma StepOpenBrace(content: string, i: nat, stack: seq<Frame>)
    requires Behind(stack, i) && i < |content| && stack != [] && stack[|stack| - 1].ExprFrame? && content[i] == '{'
    ensures Unwind(content, i, stack) == After([], Unwind(content, i + 1, stack + [PLAIN_FRAME]))
  {
    var pushed := stack + [PLAIN_FRAME];
    assert pushed[..|pushed| - 1] == stack;
    var b := Expression(content, i + 1);
    if b.closed {
      var e := Expression(content, b.end);
      if e.closed {
        AfterTwice(b.literals, e.literals, Unwind(content, e.end, PopExpr(stack, e.end)));
      }
    }
  }

  lemma StepOpenHole(content: string, i: nat, stack: seq<Frame>)
    requires Behind(stack, i) && i < |content| && stack != [] && stack[|stack| - 1].TemplateFrame?
    requires content[i] != '\\' && HoleAt(content, i)
    ensures Unwind(content, i, stack) == After([], Unwind(content, i + 2, stack + [ExprFrame(true, i)]))
  {
    var pushed := stack + [ExprFrame(true, i)];
    assert pushed[..|pushed| - 1] == stack;
    var e := Expression(content, i + 2);
    if e.closed {
      var top, rest := stack[|stack| - 1], stack[..|stack| - 1];
      var holes := top.holes + [Hole(i, e.end)];
      var below := PopExpr(pushed, e.end);
      assert below[|below| - 1] == TemplateFrame(top.start, holes) && below[..|below| - 1] == rest;
      var t := Template(content, e.end, top.start, holes);
      if t.closed {
        AfterTwice(e.literals, t.literals, Unwind(content, t.end, rest));
      }
    }
  }

  /** parse_expression: the stack machine agrees with the recursive descent on every text. */
  method ParseExpression(content: string, start: nat) returns (end: nat, literals: seq<Literal>)
    requires start < |content|
    ensures var p := Expression(content, start + 1);
      start < end == p.end && literals == p.literals
  {
    var scanner := new Scanner(content, start);
    assert Outcome(content, scanner.Now()).literals == Expression(content, start + 1).literals by {
      WholeExpression(content, start);
    }
    WholeExpression(content, start);
    scanner.Run();
    end, literals := scanner.i, scanner.literals;
  }

  lemma WholeExpression(content: string, start: nat)
    ensures var p, o := Expression(content, start + 1), Outcome(content, State(start + 1, [PLAIN_FRAME], []));
      o.end == p.end && o.literals == p.literals
  {
    var stack := [PLAIN_FRAME];
    assert stack[..|stack| - 1] == [];
    var p := Expression(content, start + 1);
    if p.closed {
      assert PopExpr(stack, p.end) == [];
      assert Unwind(content, p.end, []) == Parsed(p.end, [], true);
    }
  }

  // ----- quoted class attributes -----

  datatype QuotedScan = QuotedScan(end: nat, holes: seq<Hole>, literals: seq<Literal>)

  /** Scanning a quoted value from i: braces are holes with literals of their own. */
  function QuotedValue(content: string, i: nat, quote: char, holes: seq<Hole>, literals: seq<Literal>): (r: QuotedScan)
    ensures i <= r.end
    decreases |content| - i
  {
    if i >= |content| then QuotedScan(i, holes, literals)
    else if content[i] == '{' then
      var e := Expression(content, i + 1);
      QuotedValue(content, e.end, quote, holes + [Hole(i, e.end)], literals + e.literals)
    else if content[i] == '\\' then QuotedValue(content, i + 2, quote, holes, literals)
    else if content[i] == quote then QuotedScan(i, holes, literals)
    else QuotedValue(content, i + 1, quote, holes, literals)
  }

  /** The literals of a quoted class attribute: those of its holes, then its blanked static text. */
  function QuotedClass(content: string, start: nat, quote: char): seq<Literal>
    requires start < |content|
  {
    var q := QuotedValue(content, start + 1, quote, [], []);
    var raw := content[start + 1..Min(|content|, q.end)];
    q.literals + [Literal(Blanked(raw, q.holes, start + 1), start + 1, q.holes)]
  }

  method ParseQuotedClass(content: string, start: nat, quote: char) returns (end: nat, literals: seq<Literal>)
    requires start < |content|
    ensures end == Min(|content|, QuotedValue(content, start + 1, quote, [], []).end + 1)
    ensures literals == QuotedClass(content, start, quote)
  {
    var valStart := start + 1;
    var i := valStart;
    var holes: seq<Hole> := [];
    literals := [];
    while i < |content|
      invariant valStart <= i
      invariant QuotedValue(content, i, quote, holes, literals) == QuotedValue(content, valStart, quote, [], [])
      decreases |content| - i
    {
      if content[i] == '{' {
        var exprEnd, found := ParseExpression(content, i);
        holes := holes + [Hole(i, exprEnd)];
        literals := literals + found;
        i := exprEnd;
      } else if content[i] == '\\' {
        i := i + 2;
      } else if content[i] == quote {
        break;
      } else {
        i := i + 1;
      }
    }
    assert QuotedValue(content, i, quote, holes, literals) == QuotedScan(i, holes, literals);
    var raw := content[valStart..Min(|content|, i)];
    var blanked := BlankHoles(raw, holes, valStart);
    literals := literals + [Literal(blanked, valStart, holes)];
    end := Min(|content|, i + 1);
  }

  // ----- literals are true to the text -----

  /** A literal is the text at its offset with its holes blanked, and nothing else. */
  ghost predicate TrueTo(content: string, literal: Literal) {
    && literal.offset + |literal.text| <= |content|
    && literal.text == Blanked(content[literal.offset..literal.offset + |literal.text|], literal.holes, literal.offset)
  }

  ghost predicate AllTrue(content: string, literals: seq<Literal>) {
    forall k :: 0 <= k < |literals| ==> TrueTo(content, literals[k])
  }

  lemma BothAreTrue(content: string, a: seq<Literal>, b: seq<Literal>)
    requires AllTrue(content, a) && AllTrue(content, b)
    ensures AllTrue(content, a + b)
  {
  }

  lemma QuotedIsTrue(content: string, start: nat, quote: char)
    requires start < |content|
    ensures AllTrue(content, [QuotedString(content, start, quote).literal])
  {
    var literal := QuotedString(content, start, quote).literal;
    assert literal.text == content[literal.offset..literal.offset + |literal.text|];
    NoHoles(literal.text, literal.offset);
  }

  lemma {:induction false} ExpressionIsTrue(content: string, i: nat)
    ensures AllTrue(content, Expression(content, i).literals)
    decreases |content| - i
  {
    if i < |content| {
      if content[i] == '\'' || content[i] == '"' {
        var q := QuotedString(content, i, content[i]);
        QuotedIsTrue(content, i, content[i]);
        ExpressionIsTrue(content, q.next);
        BothAreTrue(content, [q.literal], Expression(content, q.next).literals);
      } else if content[i] == '`' {
        TemplateIsTrue(content, i + 1, i + 1, []);
        var t := Template(content, i + 1, i + 1, []);
        if t.closed {
          ExpressionIsTrue(content, t.end);
          BothAreTrue(content, t.literals, Expression(content, t.end).literals);
        }
      } else if content[i] == '{' {
        ExpressionIsTrue(content, i + 1);
        var e := Expression(content, i + 1);
        if e.closed {
          ExpressionIsTrue(content, e.end);
          BothAreTrue(content, e.literals, Expression(content, e.end).literals);
        }
      } else if content[i] == '/' {
        ExpressionIsTrue(content, CommentEnd(content, i));
      } else if content[i] != '}' {
        ExpressionIsTrue(content, i + 1);
      }
    }
  }

  lemma {:induction false} TemplateIsTrue(content: string, i: nat, start: nat, holes: seq<Hole>)
    requires start <= i
    ensures AllTrue(content, Template(content, i, start, holes).literals)
    decreases |content| - i
  {
    if i < |content| {
      if content[i] == '\\' {
        TemplateIsTrue(content, i + 2, start, holes);
      } else if HoleAt(content, i) {
        ExpressionIsTrue(content, i + 2);
        var e := Expression(content, i + 2);
        if e.closed {
          TemplateIsTrue(content, e.end, start, holes + [Hole(i, e.end)]);
          BothAreTrue(content, e.literals, Template(content, e.end, start, holes + [Hole(i, e.end)]).literals);
        }
      } else if content[i] != '`' {
        TemplateIsTrue(content, i + 1, start, holes);
      }
    }
  }

  lemma {:induction false} QuotedValueIsTrue(content: string, i: nat, quote: char, holes: seq<Hole>,
                                             literals: seq<Literal>)
    requires AllTrue(content, literals)
    ensures AllTrue(content, QuotedValue(content, i, quote, holes, literals).literals)
    decreases |content| - i
  {
    if i < |content| {
      if content[i] == '{' {
        ExpressionIsTrue(content, i + 1);
        var e := Expression(content, i + 1);
        QuotedValueIsTrue(content, e.end, quote, holes + [Hole(i, e.end)], literals + e.literals);
      } else if content[i] == '\\' {
        QuotedValueIsTrue(content, i + 2, quote, holes, literals);
      } else if content[i] != quote {
        QuotedValueIsTrue(content, i + 1, quote, holes, literals);
      }
    }
  }

  lemma QuotedClassIsTrue(content: string, start: nat, quote: char)
    requires start < |content|
    ensures AllTrue(content, QuotedClass(content, start, quote))
  {
    QuotedValueIsTrue(content, start + 1, quote, [], []);
  }

  // ----- tokens -----

  /** A maximal stretch without white space. */
  datatype Word = Word(start: nat, end: nat)

  function WordEnd(text: string, space: char -> bool, i: nat): (end: nat)
    requires i <= |text|
    ensures i <= end <= |text|
    ensures forall k :: i <= k < end ==> !space(text[k])
    ensures end < |text| ==> space(text[end])
    decreases |text| - i
  {
    if i == |text| || space(text[i]) then i else WordEnd(text, space, i + 1)
  }

  /** What the pattern for runs of non-space characters finds, from left to right. */
  function Words(text: string, space: char -> bool, i: nat): seq<Word>
    requires i <= |text|
    decreases |text| - i
  {
    if i == |text| then []
    else if space(text[i]) then Words(text, space, i + 1)
    else [Word(i, WordEnd(text, space, i + 1))] + Words(text, space, WordEnd(text, space, i + 1))
  }

  ghost predicate IsWord(text: string, space: char -> bool, w: Word) {
    && w.start < w.end <= |text|
    && (forall k :: w.start <= k < w.end ==> !space(text[k]))
    && (w.start == 0 || space(text[w.start - 1]))
    && (w.end == |text| || space(text[w.end]))
  }

  /** Every run found is maximal. */
  lemma {:induction false} WordsAreMaximal(text: string, space: char -> bool, i: nat, w: Word)
    requires i <= |text| && (i == 0 || i == |text| || space(text[i]) || space(text[i - 1]))
    requires w in Words(text, space, i)
    ensures IsWord(text, space, w) && i <= w.start
    decreases |text| - i
  {
    if space(text[i]) {
      WordsAreMaximal(text, space, i + 1, w);
    } else {
      var end := WordEnd(text, space, i + 1);
      if w != Word(i, end) {
        WordsAreMaximal(text, space, end, w);
      }
    }
  }

  /** Every maximal run is found. */
  lemma {:induction false} WordsAreAll(text: string, space: char -> bool, i: nat, w: Word)
    requires i <= w.start && IsWord(text, space, w)
    ensures w in Words(text, space, i)
    decreases |text| - i
  {
    if space(text[i]) {
      WordsAreAll(text, space, i + 1, w);
    } else {
      var end := WordEnd(text, space, i + 1);
      if w.start == i {
        assert w.end == end;
      } else {
        assert end <= w.start;
        WordsAreAll(text, space, end, w);
      }
    }
  }

  datatype Token = Token(text: string, line: nat, offset: nat, holes: seq<Hole>)

  function Newlines(content: string): nat {
    if content == "" then 0
    else Newlines(content[..|content| - 1]) + if content[|content| - 1] == '\n' then 1 else 0
  }

  lemma {:induction false} NewlinesCounts(content: string)
    ensures Newlines(content) == |set k | 0 <= k < |content| && content[k] == '\n'|
  {
    if content != "" {
      var init := content[..|content| - 1];
      NewlinesCounts(init);
      var before := set k | 0 <= k < |init| && init[k] == '\n';
      var all := set k | 0 <= k < |content| && content[k] == '\n';
      assert all == before + if content[|content| - 1] == '\n' then {|content| - 1} else {};
    }
  }

  function AfterLastColon(token: string): string {
    if token == "" then ""
    else if token[|token| - 1] == ':' then ""
    else AfterLastColon(token[..|token| - 1]) + [token[|token| - 1]]
  }

  /** What stands behind the last colon, or the whole token if it has none. */
  lemma {:induction false} AfterLastColonIs(token: string)
    ensures var base := AfterLastColon(token);
      && |base| <= |token| && token[|token| - |base|..] == base && ':' !in base
      && (|base| < |token| ==> token[|token| - |base| - 1] == ':')
  {
    if token != "" && token[|token| - 1] != ':' {
      AfterLastColonIs(token[..|token| - 1]);
    }
  }

  predicate Reported(token: string, candidate: string -> bool) {
    '{' !in token && '[' !in token && '$' !in token && candidate(AfterLastColon(token))
  }

  function TokenAt(content: string, literal: Literal, w: Word): Token
    requires w.start <= w.end <= |literal.text| && literal.offset + |literal.text| <= |content|
  {
    var offset := literal.offset + w.start;
    Token(literal.text[w.start..w.end], Newlines(content[..offset]) + 1, offset, literal.holes)
  }

  ghost predicate InText(literal: Literal, words: seq<Word>) {
    forall k :: 0 <= k < |words| ==> words[k].start <= words[k].end <= |literal.text|
  }

  /** The reported tokens of one literal, in order. */
  function TokensIn(content: string, literal: Literal, words: seq<Word>, candidate: string -> bool): seq<Token>
    requires literal.offset + |literal.text| <= |content|
    requires InText(literal, words)
  {
    if words == [] then []
    else
      var init, w := words[..|words| - 1], words[|words| - 1];
      TokensIn(content, literal, init, candidate)
      + if Reported(literal.text[w.start..w.end], candidate) then [TokenAt(content, literal, w)] else []
  }

  /** The reported tokens of a list of literals, in order. */
  function TokensOf(content: string, literals: seq<Literal>, space: char -> bool, candidate: string -> bool): seq<Token>
    requires forall k :: 0 <= k < |literals| ==> literals[k].offset + |literals[k].text| <= |content|
  {
    if literals == [] then []
    else
      var init, last := literals[..|literals| - 1], literals[|literals| - 1];
      WordsInText(last.text, space, 0);
      TokensOf(content, init, space, candidate) + TokensIn(content, last, Words(last.text, space, 0), candidate)
  }

  lemma {:induction false} WordsInText(text: string, space: char -> bool, i: nat)
    requires i <= |text|
    ensures forall k :: 0 <= k < |Words(text, space, i)| ==>
        i <= Words(text, space, i)[k].start < Words(text, space, i)[k].end <= |text|
    ensures forall j, k :: 0 <= j < k < |Words(text, space, i)| ==>
        Words(text, space, i)[j].end <= Words(text, space, i)[k].start
    decreases |text| - i
  {
    if i < |text| {
      WordsInText(text, space, if space(text[i]) then i + 1 else WordEnd(text, space, i + 1));
    }
  }

  /** The inner loop of filter_tokens: the candidate tokens of one literal. */
  method FilterWords(content: string, literal: Literal, words: seq<Word>, candidate: string -> bool)
    returns (tokens: seq<Token>)
    requires literal.offset + |literal.text| <= |content| && InText(literal, words)
    ensures tokens == TokensIn(content, literal, words, candidate)
  {
    tokens := [];
    for j := 0 to |words|
      invariant tokens == TokensIn(content, literal, words[..j], candidate)
    {
      var w := words[j];
      var tok := literal.text[w.start..w.end];
      assert words[..j + 1][..j] == words[..j];
      if '{' !in tok && '[' !in tok && '$' !in tok {
        if candidate(AfterLastColon(tok)) {
          tokens := tokens + [TokenAt(content, literal, w)];
        }
      }
    }
    assert words[..|words|] == words;
  }

  /** filter_tokens: the candidate tokens of the literals, with their lines in the file. */
  method FilterTokens(content: string, literals: seq<Literal>, space: char -> bool, candidate: string -> bool)
    returns (tokens: seq<Token>)
    requires forall k :: 0 <= k < |literals| ==> literals[k].offset + |literals[k].text| <= |content|
    ensures tokens == TokensOf(content, literals, space, candidate)
  {
    tokens := [];
    for k := 0 to |literals|
      invariant tokens == TokensOf(content, literals[..k], space, candidate)
    {
      var words := Words(literals[k].text, space, 0);
      WordsInText(literals[k].text, space, 0);
      var more := FilterWords(content, literals[k], words, candidate);
      assert literals[..k + 1][..k] == literals[..k];
      tokens := tokens + more;
    }
    assert literals[..|literals|] == literals;
  }

  /** The scanned text is the file with script and style blocks replaced by white space of the same shape. */
  ghost predicate SameShape(content: string, scannable: string) {
    |scannable| == |content| && forall k :: 0 <= k < |content| ==> scannable[k] == content[k] || scannable[k] == ' '
  }

  /** A token stands verbatim in the file, at its line, and outside every hole of its literal. */
  ghost predicate StandsIn(content: string, t: Token) {
    && t.text != ""
    && t.offset + |t.text| <= |content|
    && content[t.offset..t.offset + |t.text|] == t.text
    && t.line == Newlines(content[..t.offset]) + 1
    && forall at :: t.offset <= at < t.offset + |t.text| ==> !Covered(t.holes, at)
  }

  ghost predicate AllStandIn(content: string, tokens: seq<Token>) {
    forall k :: 0 <= k < |tokens| ==> StandsIn(content, tokens[k])
  }

  /** A character of a literal that is no white space is the file's own, and lies in no hole. */
  lemma CharacterStands(content: string, scannable: string, space: char -> bool, literal: Literal, at: nat)
    requires SameShape(content, scannable) && space(' ') && TrueTo(scannable, literal)
    requires at < |literal.text| && !space(literal.text[at])
    ensures content[literal.offset + at] == literal.text[at] && !Covered(literal.holes, literal.offset + at)
  {
    assert literal.text[at]
        == Blanked(scannable[literal.offset..literal.offset + |literal.text|], literal.holes, literal.offset)[at];
  }

  lemma WordStands(content: string, scannable: string, space: char -> bool, literal: Literal, w: Word)
    requires SameShape(content, scannable) && space(' ')
    requires TrueTo(scannable, literal) && IsWord(literal.text, space, w)
    ensures StandsIn(content, TokenAt(content, literal, w))
  {
    var t := TokenAt(content, literal, w);
    forall k | 0 <= k < |t.text|
      ensures content[t.offset + k] == t.text[k] && !Covered(t.holes, t.offset + k)
    {
      CharacterStands(content, scannable, space, literal, w.start + k);
    }
    forall at | t.offset <= at < t.offset + |t.text| ensures !Covered(t.holes, at) {
      assert content[t.offset + (at - t.offset)] == t.text[at - t.offset];
    }
  }

  lemma {:induction false} TokensInStand(content: string, scannable: string, space: char -> bool, literal: Literal,
                                         words: seq<Word>, candidate: string -> bool)
    requires SameShape(content, scannable) && space(' ') && TrueTo(scannable, literal)
    requires InText(literal, words) && forall k :: 0 <= k < |words| ==> IsWord(literal.text, space, words[k])
    ensures AllStandIn(content, TokensIn(content, literal, words, candidate))
    decreases |words|
  {
    if words != [] {
      TokensInStand(content, scannable, space, literal, words[..|words| - 1], candidate);
      WordStands(content, scannable, space, literal, words[|words| - 1]);
    }
  }

  /** Every token of true literals stands in the file. */
  lemma {:induction false} TokensStand(content: string, scannable: string, literals: seq<Literal>, space: char -> bool,
                                       candidate: string -> bool)
    requires SameShape(content, scannable) && space(' ') && AllTrue(scannable, literals)
    ensures AllStandIn(content, TokensOf(content, literals, space, candidate))
    decreases |literals|
  {
    if literals != [] {
      var last := literals[|literals| - 1];
      TokensStand(content, scannable, literals[..|literals| - 1], space, candidate);
      var words := Words(last.text, space, 0);
      WordsInText(last.text, space, 0);
      forall k | 0 <= k < |words| ensures IsWord(last.text, space, words[k]) {
        WordsAreMaximal(last.text, space, 0, words[k]);
      }
      TokensInStand(content, scannable, space, last, words, candidate);
    }
  }

  // ----- the whole file -----

  /** What the class-target pattern finds: a class:name directive, or the character that opens a value. */
  datatype Target = Directive(nameStart: nat, nameEnd: nat) | Value(at: nat)

  ghost predicate GoodTarget(scannable: string, space: char -> bool, pos: nat, target: Target) {
    match target
    case Directive(from, to) => pos <= from < to <= |scannable| && forall k :: from <= k < to ==> !space(scannable[k])
    case Value(at) => pos <= at < |scannable|
  }

  /** A search result lies at or behind the position; a directive name has no white space. */
  ghost predicate Searches(scannable: string, space: char -> bool, search: nat -> Option<Target>) {
    forall pos: nat :: search(pos).Some? ==> GoodTarget(scannable, space, pos, search(pos).value)
  }

  function SkipSpace(text: string, space: char -> bool, i: nat): (r: nat)
    ensures i <= r
    decreases |text| - i
  {
    if i < |text| && space(text[i]) then SkipSpace(text, space, i + 1) else i
  }

  datatype Scanned = Scanned(next: nat, tokens: seq<Token>)

  /** A class:name directive: its token, and the position behind it or behind its value in braces. */
  function DirectiveScan(content: string, scannable: string, from: nat, to: nat, space: char -> bool,
                         candidate: string -> bool): (r: Scanned)
    requires |scannable| == |content| && from < to <= |scannable|
    ensures to <= r.next
  {
    if to < |scannable| && scannable[to] == ':' then Scanned(to + 1, [])
    else
      var name := scannable[from..to];
      var tokens := if Reported(name, candidate) then [Token(name, Newlines(content[..from]) + 1, from, [])] else [];
      Scanned(DirectiveEnd(scannable, to, space), tokens)
  }

  /** The brace of the expression that may follow a directive's name. */
  function ValueBrace(scannable: string, to: nat, space: char -> bool): (brace: Option<nat>)
    ensures brace.Some? ==> to <= brace.value < |scannable| && scannable[brace.value] == '{'
  {
    if OccursAt(scannable, "={", SkipSpace(scannable, space, to)) then
      ValueOpens(scannable, SkipSpace(scannable, space, to));
      Find(scannable, "{", to)
    else None
  }

  /** Where a directive ends: behind the expression that may follow its name. */
  function DirectiveEnd(scannable: string, to: nat, space: char -> bool): (end: nat)
    ensures to <= end
  {
    var brace := ValueBrace(scannable, to, space);
    if brace.Some? then Expression(scannable, brace.value + 1).end else to
  }

  lemma {:induction false} SpaceIsSkipped(text: string, space: char -> bool, i: nat)
    ensures var r := SkipSpace(text, space, i);
      && (r == i || r <= |text|)
      && (forall k :: i <= k < r ==> space(text[k]))
      && (r < |text| ==> !space(text[r]))
    decreases |text| - i
  {
    if i < |text| && space(text[i]) {
      SpaceIsSkipped(text, space, i + 1);
    }
  }

  /** Behind nothing but white space, ={ opens a value. */
  ghost predicate ValueFollows(text: string, to: nat, space: char -> bool, k: nat) {
    to <= k && OccursAt(text, "={", k) && !space(text[k]) && forall m :: to <= m < k ==> space(text[m])
  }

  /** A directive has a value exactly when ={ follows its name behind white space, and then at the first brace. */
  lemma ValueBraceIs(text: string, to: nat, space: char -> bool)
    ensures var r := ValueBrace(text, to, space);
      && (r.Some? <==> exists k :: ValueFollows(text, to, space, k))
      && (r.Some? ==> forall m :: to <= m < r.value ==> text[m] != '{')
  {
    var skipped, r := SkipSpace(text, space, to), ValueBrace(text, to, space);
    SpaceIsSkipped(text, space, to);
    if r.Some? {
      assert ValueFollows(text, to, space, skipped);
      forall m | to <= m < r.value ensures text[m] != '{' {
        if text[m] == '{' {
          BraceOccurs(text, m);
        }
      }
    }
    if k :| ValueFollows(text, to, space, k) {
      assert k == skipped;
      ValueOpens(text, k);
    }
  }

  lemma BraceOccurs(text: string, k: nat)
    requires k < |text| && text[k] == '{'
    ensures OccursAt(text, "{", k)
  {
    assert text[k..k + 1] == [text[k]];
  }

  lemma ValueOpens(text: string, k: nat)
    requires OccursAt(text, "={", k)
    ensures OccursAt(text, "{", k + 1)
  {
    assert text[k + 1] == text[k..k + 2][1];
  }

  /** The literals of a class value in braces or quotes. */
  function ValueLiterals(scannable: string, at: nat): seq<Literal>
    requires at < |scannable|
  {
    if scannable[at] == '{' then Expression(scannable, at + 1).literals else QuotedClass(scannable, at, scannable[at])
  }

  function ValueEnd(scannable: string, at: nat): (end: nat)
    requires at < |scannable|
    ensures at < end
  {
    if scannable[at] == '{' then Expression(scannable, at + 1).end
    else Min(|scannable|, QuotedValue(scannable, at + 1, scannable[at], [], []).end + 1)
  }

  lemma ValueIsTrue(scannable: string, at: nat)
    requires at < |scannable|
    ensures AllTrue(scannable, ValueLiterals(scannable, at))
  {
    ExpressionIsTrue(scannable, at + 1);
    QuotedClassIsTrue(scannable, at, scannable[at]);
  }

  /** All tokens of the class contexts found from a position on. */
  ghost function Extracted(content: string, scannable: string, search: nat -> Option<Target>, space: char -> bool,
                           candidate: string -> bool, pos: nat): seq<Token>
    requires SameShape(content, scannable) && Searches(scannable, space, search)
    decreases |scannable| - pos
  {
    if pos >= |scannable| || search(pos).None? then []
    else
      assert GoodTarget(scannable, space, pos, search(pos).value);
      match search(pos).value
      case Directive(from, to) =>
        var d := DirectiveScan(content, scannable, from, to, space, candidate);
        d.tokens + Extracted(content, scannable, search, space, candidate, d.next)
      case Value(at) =>
        ValueIsTrue(scannable, at);
        TokensOf(content, ValueLiterals(scannable, at), space, candidate)
        + Extracted(content, scannable, search, space, candidate, ValueEnd(scannable, at))
  }

  /** Whatever the scanner reports stands in the file. */
  lemma {:induction false} ExtractedTokensStand(content: string, scannable: string, search: nat -> Option<Target>,
                                                space: char -> bool, candidate: string -> bool, pos: nat)
    requires SameShape(content, scannable) && space(' ') && Searches(scannable, space, search)
    ensures AllStandIn(content, Extracted(content, scannable, search, space, candidate, pos))
    decreases |scannable| - pos
  {
    if pos < |scannable| && search(pos).Some? {
      assert GoodTarget(scannable, space, pos, search(pos).value);
      match search(pos).value
      case Directive(from, to) =>
        DirectiveStands(content, scannable, from, to, space);
        var d := DirectiveScan(content, scannable, from, to, space, candidate);
        ExtractedTokensStand(content, scannable, search, space, candidate, d.next);
      case Value(at) =>
        ValueIsTrue(scannable, at);
        TokensStand(content, scannable, ValueLiterals(scannable, at), space, candidate);
        ExtractedTokensStand(content, scannable, search, space, candidate, ValueEnd(scannable, at));
    }
  }

  lemma DirectiveStands(content: string, scannable: string, from: nat, to: nat, space: char -> bool)
    requires SameShape(content, scannable) && space(' ')
    requires from < to <= |scannable| && forall k :: from <= k < to ==> !space(scannable[k])
    ensures StandsIn(content, Token(scannable[from..to], Newlines(content[..from]) + 1, from, []))
  {
    forall k | from <= k < to ensures scannable[k] == content[k] {
      assert !space(scannable[k]);
    }
    assert content[from..to] == scannable[from..to];
  }

  /** No word is lost: every maximal word of a literal that passes the filter is reported. */
  lemma {:induction false} WordsAreReported(content: string, literals: seq<Literal>, k: nat, w: Word,
                                            space: char -> bool, candidate: string -> bool)
    requires forall j :: 0 <= j < |literals| ==> literals[j].offset + |literals[j].text| <= |content|
    requires k < |literals| && IsWord(literals[k].text, space, w)
    requires Reported(literals[k].text[w.start..w.end], candidate)
    ensures TokenAt(content, literals[k], w) in TokensOf(content, literals, space, candidate)
    decreases |literals|
  {
    if k < |literals| - 1 {
      WordsAreReported(content, literals[..|literals| - 1], k, w, space, candidate);
    } else {
      var words := Words(literals[k].text, space, 0);
      WordsInText(literals[k].text, space, 0);
      WordsAreAll(literals[k].text, space, 0, w);
      WordIsReported(content, literals[k], words, w, candidate);
    }
  }

  lemma {:induction false} WordIsReported(content: string, literal: Literal, words: seq<Word>, w: Word,
                                          candidate: string -> bool)
    requires literal.offset + |literal.text| <= |content| && InText(literal, words)
    requires w in words && w.end <= |literal.text| && w.start <= w.end
    requires Reported(literal.text[w.start..w.end], candidate)
    ensures TokenAt(content, literal, w) in TokensIn(content, literal, words, candidate)
    decreases |words|
  {
    if words[|words| - 1] != w {
      WordIsReported(content, literal, words[..|words| - 1], w, candidate);
    }
  }

  method HandleDirective(content: string, scannable: string, from: nat, to: nat, space: char -> bool,
                         candidate: string -> bool)
    returns (next: nat, tokens: seq<Token>)
    requires |scannable| == |content| && from < to <= |scannable|
    ensures next == DirectiveScan(content, scannable, from, to, space, candidate).next
    ensures tokens == DirectiveScan(content, scannable, from, to, space, candidate).tokens
  {
    tokens := [];
    if to < |scannable| && scannable[to] == ':' {
      return to + 1, [];
    }
    var name := scannable[from..to];
    if Reported(name, candidate) {
      tokens := [Token(name, Newlines(content[..from]) + 1, from, [])];
    }
    next := SkipDirectiveValue(scannable, to, space);
  }

  method SkipDirectiveValue(scannable: string, to: nat, space: char -> bool) returns (next: nat)
    ensures next == DirectiveEnd(scannable, to, space)
  {
    next := to;
    var brace := ValueBrace(scannable, to, space);
    if brace.Some? {
      var end, _ := ParseExpression(scannable, brace.value);
      next := end;
    }
  }

  /** A class value in braces or quotes. */
  method ParseValue(scannable: string, at: nat) returns (next: nat, literals: seq<Literal>)
    requires at < |scannable|
    ensures next == ValueEnd(scannable, at) && literals == ValueLiterals(scannable, at)
  {
    if scannable[at] == '{' {
      next, literals := ParseExpression(scannable, at);
    } else {
      next, literals := ParseQuotedClass(scannable, at, scannable[at]);
    }
  }

  /** One class context: its tokens and the position behind it. */
  method Context(content: string, scannable: string, target: Target, space: char -> bool, candidate: string -> bool)
    returns (next: nat, more: seq<Token>)
    requires |scannable| == |content| && space(' ')
    requires target.Directive? ==> target.nameStart < target.nameEnd <= |scannable|
    requires target.Value? ==> target.at < |scannable|
    ensures target.Directive? ==>
      Scanned(next, more) == DirectiveScan(content, scannable, target.nameStart, target.nameEnd, space, candidate)
    ensures target.Value? ==> AllTrue(scannable, ValueLiterals(scannable, target.at))
    ensures target.Value? ==> next == ValueEnd(scannable, target.at)
    ensures target.Value? ==> more == TokensOf(content, ValueLiterals(scannable, target.at), space, candidate)
  {
    match target
    case Directive(from, to) =>
      next, more := HandleDirective(content, scannable, from, to, space, candidate);
    case Value(at) =>
      var literals;
      next, literals := ParseValue(scannable, at);
      ValueIsTrue(scannable, at);
      more := FilterTokens(content, literals, space, candidate);
  }

  /** The tokens of one context come before those found behind it. */
  lemma ExtractedFrom(content: string, scannable: string, search: nat -> Option<Target>, space: char -> bool,
                      candidate: string -> bool, pos: nat, next: nat, more: seq<Token>)
    requires SameShape(content, scannable) && Searches(scannable, space, search)
    requires pos < |scannable| && search(pos).Some? && GoodTarget(scannable, space, pos, search(pos).value)
    requires search(pos).value.Directive? ==>
      Scanned(next, more) == DirectiveScan(content, scannable, search(pos).value.nameStart, search(pos).value.nameEnd,
          space, candidate)
    requires search(pos).value.Value? ==>
      (&& AllTrue(scannable, ValueLiterals(scannable, search(pos).value.at))
        && next == ValueEnd(scannable, search(pos).value.at)
       && more == TokensOf(content, ValueLiterals(scannable, search(pos).value.at), space, candidate))
    ensures Extracted(content, scannable, search, space, candidate, pos)
         == more + Extracted(content, scannable, search, space, candidate, next)
    ensures pos < next
  {
  }

  /** extract_candidate_tokens: exactly the tokens of the class contexts, each of which stands in the file. */
  method ExtractCandidateTokens(content: string, scannable: string, search: nat -> Option<Target>, space: char -> bool,
                                candidate: string -> bool)
    returns (tokens: seq<Token>)
    requires SameShape(content, scannable) && space(' ') && Searches(scannable, space, search)
    ensures tokens == Extracted(content, scannable, search, space, candidate, 0)
    ensures AllStandIn(content, tokens)
  {
    tokens := [];
    var pos := 0;
    ghost var all := Extracted(content, scannable, search, space, candidate, 0);
    while pos < |scannable|
      invariant tokens + Extracted(content, scannable, search, space, candidate, pos) == all
      decreases |scannable| - pos
    {
      var found := search(pos);
      if found.None? {
        break;
      }
      assert GoodTarget(scannable, space, pos, found.value);
      var next, more := Context(content, scannable, found.value, space, candidate);
      ExtractedFrom(content, scannable, search, space, candidate, pos, next, more);
      Regroup(tokens, more, Extracted(content, scannable, search, space, candidate, next));
      tokens := tokens + more;
      pos := next;
    }
    assert tokens == all;
    ExtractedTokensStand(content, scannable, search, space, candidate, 0);
  }

  lemma Regroup<T>(a: seq<T>, b: seq<T>, c: seq<T>)
    ensures a + (b + c) == (a + b) + c
  {
  }
}
