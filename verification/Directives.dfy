/** The conditional groups of a file, read line by line: find_includes() obeys the directives of the
    groups that are taken, gobble() passes over the others. */
module Directives {

  /** A directive line.  `text` is the line where it may be defined by mistake. */
  datatype Line =
    | If(exp: string) | Ifdef(sym: string) | Ifndef(sym: string)
    | Elif(text: string, exp: string) | Else(text: string) | Endif(text: string)
    | Define(def: string) | Undef(name: string) | Include(how: nat, file: string)
    | Other(text: string)

  /** What is done for a directive, and whether a failure to find a file is to be kept quiet. */
  datatype Event = Event(act: Line, failOK: bool)

  datatype Verdict = True | False | GuessFalse

  /** What conditions evaluate to after the events so far. */
  datatype World = World(test: (string, seq<Event>) -> Verdict, defined: (string, seq<Event>) -> bool)

  /** What a reader stopped at. */
  datatype Kind = END | ELSE | ENDIF | ELIF | ELIFFALSE | ELIFGUESSFALSE

  predicate IsElif(k: Kind) {
    k.ELIF? || k.ELIFFALSE? || k.ELIFGUESSFALSE?
  }

  function ElifKind(v: Verdict): Kind {
    match v case True => ELIF case False => ELIFFALSE case GuessFalse => ELIFGUESSFALSE
  }

  // ----- gobble() -----

  function Gobble(w: World, lines: seq<Line>, trace: seq<Event>): (r: (Kind, seq<Line>))
    ensures |r.1| <= |lines| && (r.0 != END ==> |r.1| < |lines|)
    decreases |lines|, 0
  {
    if lines == [] then (END, [])
    else
      var t := lines[1..];
      match lines[0]
      case If(_) => Gobble(w, GobbleSection(w, t, trace), trace)
      case Ifdef(_) => Gobble(w, GobbleSection(w, t, trace), trace)
      case Ifndef(_) => Gobble(w, GobbleSection(w, t, trace), trace)
      case Else(_) => (ELSE, t)
      case Endif(_) => (ENDIF, t)
      case Elif(_, exp) => (ElifKind(w.test(exp, trace)), t)
      case _ => Gobble(w, t, trace)
  }

  /** All groups of a section, up to its #endif. */
  function GobbleSection(w: World, lines: seq<Line>, trace: seq<Event>): (r: seq<Line>)
    ensures |r| <= |lines|
    decreases |lines|, 1
  {
    var g := Gobble(w, lines, trace);
    GobbleRest(w, g.0, g.1, trace, |lines|)
  }

  /** The groups behind one that ended with `k`. */
  function GobbleRest(w: World, k: Kind, lines: seq<Line>, trace: seq<Event>, size: nat): (r: seq<Line>)
    requires |lines| <= size && (k != END ==> |lines| < size)
    ensures |r| <= |lines|
    decreases size, 0
  {
    if IsElif(k) then GobbleSection(w, lines, trace)
    else if k == ELSE then Gobble(w, lines, trace).1
    else lines
  }

  // ----- find_includes() -----

  datatype Reading = Reading(kind: Kind, rest: seq<Line>, trace: seq<Event>)

  function FindIncludes(w: World, lines: seq<Line>, trace: seq<Event>, recursion: nat, failOK: bool): (r: Reading)
    ensures |r.rest| <= |lines| && (r.kind != END ==> |r.rest| < |lines|) && (r.kind == END ==> r.rest == [])
    decreases |lines|, 0
  {
    if lines == [] then Reading(END, [], trace)
    else
      var t := lines[1..];
      var line := lines[0];
      match line
      case If(exp) =>
        var v := w.test(exp, trace);
        var s := if v == True then DoIf(w, t, trace, recursion, failOK)
                 else DoIfFalse(w, t, trace, recursion, failOK, v == GuessFalse);
        FindIncludes(w, s.0, s.1, recursion, failOK)
      case Ifdef(sym) =>
        var s := if w.defined(sym, trace) then DoIf(w, t, trace, recursion, failOK)
                 else DoIfFalse(w, t, trace, recursion, failOK, false);
        FindIncludes(w, s.0, s.1, recursion, failOK)
      case Ifndef(sym) =>
        var s := if !w.defined(sym, trace) then DoIf(w, t, trace, recursion, failOK)
                 else DoIfFalse(w, t, trace, recursion, failOK, false);
        FindIncludes(w, s.0, s.1, recursion, failOK)
      case Else(text) =>
        if recursion > 0 then Reading(ELSE, t, trace)
        else FindIncludes(w, Gobble(w, t, trace).1, trace + [Event(Define(text), failOK)], recursion, failOK)
      case Elif(text, _) =>
        if recursion > 0 then Reading(ELIF, t, trace)
        else FindIncludes(w, Gobble(w, t, trace).1, trace + [Event(Define(text), failOK)], recursion, failOK)
      case Endif(text) =>
        if recursion > 0 then Reading(ENDIF, t, trace)
        else FindIncludes(w, t, trace + [Event(Define(text), failOK)], recursion, failOK)
      case _ => FindIncludes(w, t, trace + Act(line, failOK), recursion, failOK)
  }

  /** A directive that stands for itself. */
  function Act(line: Line, failOK: bool): seq<Event> {
    if line.Define? || line.Include? || (line.Undef? && line.name != "") then [Event(line, failOK)] else []
  }

  /** A group that is taken; the others of its section are passed over. */
  function DoIf(w: World, lines: seq<Line>, trace: seq<Event>, recursion: nat, failOK: bool): (r: (seq<Line>, seq<Event>))
    ensures |r.0| <= |lines|
    decreases |lines|, 1
  {
    var f := FindIncludes(w, lines, trace, recursion + 1, failOK);
    (GobbleRest(w, f.kind, f.rest, f.trace, |lines|), f.trace)
  }

  /** A group that is not taken, and what comes after it. */
  function DoIfFalse(w: World, lines: seq<Line>, trace: seq<Event>, recursion: nat, failOK: bool, guess: bool): (r: (seq<Line>, seq<Event>))
    ensures |r.0| <= |lines|
    decreases |lines|, 1
  {
    var g := Gobble(w, lines, trace);
    if g.0 == ELSE then
      var f := FindIncludes(w, g.1, trace, recursion + 1, guess || failOK);
      (f.rest, f.trace)
    else if g.0 == ELIF then DoIf(w, g.1, trace, recursion, failOK)
    else if IsElif(g.0) then DoIfFalse(w, g.1, trace, recursion, failOK, g.0 == ELIFGUESSFALSE)
    else (g.1, trace)
  }

  // ----- the structure of a file -----

  /** A file as section 6.10.1 of ISO/IEC 9899:1999 sees it: lines, and if-sections of groups. */
  datatype Group = Done(src: nat) | Next(item: Item, rest: Group)
  datatype Item = Plain(line: Line) | Section(test: Test, group: Group, tail: Tail)
  datatype Test = OnIf(exp: string) | OnIfdef(sym: string) | OnIfndef(sym: string)
  datatype Tail =
    | AtEndif(text: string)
    | AtElse(text: string, group: Group, close: string)
    | AtElif(text: string, exp: string, group: Group, tail: Tail)

  function TestLine(t: Test): Line {
    match t case OnIf(e) => If(e) case OnIfdef(s) => Ifdef(s) case OnIfndef(s) => Ifndef(s)
  }

  function Flat(g: Group): seq<Line>
    decreases g
  {
    match g
    case Done(_) => []
    case Next(i, r) => FlatItem(i) + Flat(r)
  }

  function FlatItem(i: Item): seq<Line>
    decreases i
  {
    match i
    case Plain(line) => [line]
    case Section(t, g, tail) => [TestLine(t)] + (Flat(g) + FlatTail(tail))
  }

  function FlatTail(t: Tail): seq<Line>
    decreases t
  {
    match t
    case AtEndif(text) => [Endif(text)]
    case AtElse(text, g, close) => [Else(text)] + (Flat(g) + [Endif(close)])
    case AtElif(text, exp, g, tail) => [Elif(text, exp)] + (Flat(g) + FlatTail(tail))
  }

  predicate IsPlain(line: Line) {
    line.Define? || line.Undef? || line.Include? || line.Other?
  }

  /** No line of the file is half of a section. */
  predicate Nested(g: Group)
    decreases g
  {
    match g
    case Done(_) => true
    case Next(i, r) => NestedItem(i) && Nested(r)
  }

  predicate NestedItem(i: Item)
    decreases i
  {
    match i
    case Plain(line) => IsPlain(line)
    case Section(_, g, t) => Nested(g) && NestedTail(t)
  }

  predicate NestedTail(t: Tail)
    decreases t
  {
    match t
    case AtEndif(_) => true
    case AtElse(_, g, _) => Nested(g)
    case AtElif(_, _, g, tail) => Nested(g) && NestedTail(tail)
  }

  // ----- what it means: one group of each section -----

  function Meaning(w: World, t: Test, trace: seq<Event>): Verdict {
    match t
    case OnIf(e) => w.test(e, trace)
    case OnIfdef(s) => if w.defined(s, trace) then True else False
    case OnIfndef(s) => if w.defined(s, trace) then False else True
  }

  function Run(w: World, g: Group, trace: seq<Event>, failOK: bool): seq<Event>
    decreases g
  {
    match g
    case Done(_) => trace
    case Next(i, r) => Run(w, r, RunItem(w, i, trace, failOK), failOK)
  }

  function RunItem(w: World, i: Item, trace: seq<Event>, failOK: bool): seq<Event>
    decreases i
  {
    match i
    case Plain(line) => trace + Act(line, failOK)
    case Section(t, g, tail) =>
      var v := Meaning(w, t, trace);
      if v == True then Run(w, g, trace, failOK) else RunTail(w, tail, trace, failOK, v == GuessFalse)
  }

  /** The groups behind one that is not taken; `guess` says that its condition was a guess. */
  function RunTail(w: World, t: Tail, trace: seq<Event>, failOK: bool, guess: bool): seq<Event>
    decreases t
  {
    match t
    case AtEndif(_) => trace
    case AtElse(_, g, _) => Run(w, g, trace, guess || failOK)
    case AtElif(_, exp, g, tail) =>
      var v := w.test(exp, trace);
      if v == True then Run(w, g, trace, failOK) else RunTail(w, tail, trace, failOK, v == GuessFalse)
  }

  // ----- passing over -----

  lemma {:induction false} GobblesGroup(w: World, g: Group, rest: seq<Line>, trace: seq<Event>)
    requires Nested(g)
    ensures Gobble(w, Flat(g) + rest, trace) == Gobble(w, rest, trace)
    decreases g
  {
    match g
    case Done(_) => assert [] + rest == rest;
    case Next(i, r) =>
      var more := Flat(r) + rest;
      assert Flat(g) + rest == FlatItem(i) + more;
      GobblesItem(w, i, more, trace);
      GobblesGroup(w, r, rest, trace);
  }

  lemma {:induction false} GobblesItem(w: World, i: Item, rest: seq<Line>, trace: seq<Event>)
    requires NestedItem(i)
    ensures Gobble(w, FlatItem(i) + rest, trace) == Gobble(w, rest, trace)
    decreases i
  {
    match i
    case Plain(line) => assert ([line] + rest)[1..] == rest;
    case Section(t, g, tail) =>
      var body := Flat(g) + (FlatTail(tail) + rest);
      assert FlatItem(i) + rest == [TestLine(t)] + body;
      assert ([TestLine(t)] + body)[1..] == body;
      GobblesGroup(w, g, FlatTail(tail) + rest, trace);
      GobblesTail(w, tail, rest, trace);
      assert GobbleSection(w, body, trace) == rest by { SectionOfTail(w, body, FlatTail(tail) + rest, trace, rest); }
  }

  lemma SectionOfTail(w: World, body: seq<Line>, tail: seq<Line>, trace: seq<Event>, rest: seq<Line>)
    requires Gobble(w, body, trace) == Gobble(w, tail, trace)
    requires |tail| <= |body| && GobbleSection(w, tail, trace) == rest
    ensures GobbleSection(w, body, trace) == rest
  {
    var r := Gobble(w, tail, trace);
    SizeIsNothing(w, r.0, r.1, trace, |body|, |tail|);
  }

  lemma SizeIsNothing(w: World, k: Kind, lines: seq<Line>, trace: seq<Event>, size: nat, size': nat)
    requires |lines| <= size && (k != END ==> |lines| < size)
    requires |lines| <= size' && (k != END ==> |lines| < size')
    ensures GobbleRest(w, k, lines, trace, size) == GobbleRest(w, k, lines, trace, size')
  {
  }

  /** A line that ends a group. */
  lemma GobbleStops(w: World, line: Line, t: seq<Line>, trace: seq<Event>)
    requires line.Else? || line.Elif? || line.Endif?
    ensures Gobble(w, [line] + t, trace) ==
            (if line.Else? then ELSE else if line.Endif? then ENDIF else ElifKind(w.test(line.exp, trace)), t)
  {
    assert ([line] + t)[1..] == t;
  }

  lemma NothingToGobble(w: World, lines: seq<Line>, trace: seq<Event>)
    requires lines == []
    ensures Gobble(w, lines, trace) == (END, [])
  {
  }

  /** A line that does not. */
  lemma GobbleGoesOn(w: World, lines: seq<Line>, trace: seq<Event>)
    requires lines != [] && !lines[0].Else? && !lines[0].Elif? && !lines[0].Endif?
    ensures var t := lines[1..];
            Gobble(w, lines, trace) ==
            Gobble(w, if lines[0].If? || lines[0].Ifdef? || lines[0].Ifndef? then GobbleSection(w, t, trace) else t, trace)
  {
  }

  /** What a section does behind its first group. */
  lemma SectionGoesOn(w: World, lines: seq<Line>, trace: seq<Event>)
    ensures var g := Gobble(w, lines, trace);
            GobbleSection(w, lines, trace) ==
            if IsElif(g.0) then GobbleSection(w, g.1, trace) else if g.0 == ELSE then Gobble(w, g.1, trace).1 else g.1
  {
    hide Gobble;
  }

  /** Up to the #endif of the section. */
  lemma {:induction false} GobblesTail(w: World, t: Tail, rest: seq<Line>, trace: seq<Event>)
    requires NestedTail(t)
    ensures GobbleSection(w, FlatTail(t) + rest, trace) == rest
    decreases t
  {
    hide Gobble, GobbleSection, Flat;
    var lines := FlatTail(t) + rest;
    SectionGoesOn(w, lines, trace);
    match t
    case AtEndif(text) => GobbleStops(w, Endif(text), rest, trace);
    case AtElse(text, g, close) =>
      var body := Flat(g) + ([Endif(close)] + rest);
      assert lines == [Else(text)] + body;
      GobbleStops(w, Else(text), body, trace);
      GobblesGroup(w, g, [Endif(close)] + rest, trace);
      GobbleStops(w, Endif(close), rest, trace);
    case AtElif(text, exp, g, tail) =>
      var body := Flat(g) + (FlatTail(tail) + rest);
      assert lines == [Elif(text, exp)] + body;
      GobbleStops(w, Elif(text, exp), body, trace);
      GobblesGroup(w, g, FlatTail(tail) + rest, trace);
      GobblesTail(w, tail, rest, trace);
      SectionOfTail(w, body, FlatTail(tail) + rest, trace, rest);
  }

  // ----- obeying -----

  /** find_includes() does with a well-nested piece what the interpreter does, and goes on. */
  lemma {:induction false} FindsGroup(w: World, g: Group, rest: seq<Line>, trace: seq<Event>, recursion: nat, failOK: bool)
    requires Nested(g)
    ensures FindIncludes(w, Flat(g) + rest, trace, recursion, failOK) ==
            FindIncludes(w, rest, Run(w, g, trace, failOK), recursion, failOK)
    decreases g, 0
  {
    match g
    case Done(_) => assert [] + rest == rest;
    case Next(i, r) =>
      var more := Flat(r) + rest;
      assert Flat(g) + rest == FlatItem(i) + more;
      FindsItem(w, i, more, trace, recursion, failOK);
      FindsGroup(w, r, rest, RunItem(w, i, trace, failOK), recursion, failOK);
  }

  lemma {:induction false} FindsItem(w: World, i: Item, rest: seq<Line>, trace: seq<Event>, recursion: nat, failOK: bool)
    requires NestedItem(i)
    ensures FindIncludes(w, FlatItem(i) + rest, trace, recursion, failOK) ==
            FindIncludes(w, rest, RunItem(w, i, trace, failOK), recursion, failOK)
    decreases i, 0
  {
    match i
    case Plain(line) => assert ([line] + rest)[1..] == rest;
    case Section(t, g, tail) =>
      var body := Flat(g) + (FlatTail(tail) + rest);
      var v := Meaning(w, t, trace);
      assert FlatItem(i) + rest == [TestLine(t)] + body;
      assert ([TestLine(t)] + body)[1..] == body;
      if v == True { TakesGroup(w, g, tail, rest, trace, recursion, failOK); }
      else { LeavesGroup(w, g, tail, rest, trace, recursion, failOK, v == GuessFalse); }
      hide DoIf, DoIfFalse, Run, RunTail, Flat, FlatTail;
  }

  /** A group that is taken. */
  lemma {:induction false} TakesGroup(w: World, g: Group, tail: Tail, rest: seq<Line>, trace: seq<Event>, recursion: nat, failOK: bool)
    requires Nested(g) && NestedTail(tail)
    ensures DoIf(w, Flat(g) + (FlatTail(tail) + rest), trace, recursion, failOK) == (rest, Run(w, g, trace, failOK))
    decreases g, 1
  {
    var body := Flat(g) + (FlatTail(tail) + rest);
    var after := Run(w, g, trace, failOK);
    FindsGroup(w, g, FlatTail(tail) + rest, trace, recursion + 1, failOK);
    StopsAtTail(w, tail, rest, after, recursion, failOK, |body|);
  }

  /** In a section, find_includes() stops where the group ends; what is left is passed over. */
  lemma StopsAtTail(w: World, tail: Tail, rest: seq<Line>, trace: seq<Event>, recursion: nat, failOK: bool, size: nat)
    requires NestedTail(tail) && |FlatTail(tail) + rest| <= size
    ensures var f := FindIncludes(w, FlatTail(tail) + rest, trace, recursion + 1, failOK);
            f.trace == trace && f.kind != END && GobbleRest(w, f.kind, f.rest, trace, size) == rest
  {
    hide Gobble, GobbleSection, Flat;
    var lines := FlatTail(tail) + rest;
    match tail
    case AtEndif(text) => assert lines[1..] == rest;
    case AtElse(text, g, close) =>
      assert lines[1..] == Flat(g) + ([Endif(close)] + rest);
      GobblesGroup(w, g, [Endif(close)] + rest, trace);
      GobbleStops(w, Endif(close), rest, trace);
    case AtElif(text, exp, g, more) =>
      var body := Flat(g) + (FlatTail(more) + rest);
      assert lines[1..] == body;
      GobblesGroup(w, g, FlatTail(more) + rest, trace);
      GobblesTail(w, more, rest, trace);
      SectionOfTail(w, body, FlatTail(more) + rest, trace, rest);
  }

  lemma AtLastEndif(w: World, close: string, rest: seq<Line>, trace: seq<Event>, recursion: nat, failOK: bool)
    ensures FindIncludes(w, [Endif(close)] + rest, trace, recursion + 1, failOK) == Reading(ENDIF, rest, trace)
  {
    assert ([Endif(close)] + rest)[1..] == rest;
  }

  /** A group that is not taken. */
  lemma {:induction false} LeavesGroup(w: World, g: Group, tail: Tail, rest: seq<Line>, trace: seq<Event>, recursion: nat, failOK: bool, guess: bool)
    requires Nested(g) && NestedTail(tail)
    ensures DoIfFalse(w, Flat(g) + (FlatTail(tail) + rest), trace, recursion, failOK, guess) ==
            (rest, RunTail(w, tail, trace, failOK, guess))
    decreases tail, 1
  {
    hide Gobble, FindIncludes, DoIf, Run, Flat;
    var lines := FlatTail(tail) + rest;
    GobblesGroup(w, g, lines, trace);
    match tail
    case AtEndif(text) => GobbleStops(w, Endif(text), rest, trace);
    case AtElse(text, h, close) =>
      var body := Flat(h) + ([Endif(close)] + rest);
      assert lines == [Else(text)] + body;
      GobbleStops(w, Else(text), body, trace);
      FindsGroup(w, h, [Endif(close)] + rest, trace, recursion + 1, guess || failOK);
      AtLastEndif(w, close, rest, Run(w, h, trace, guess || failOK), recursion, guess || failOK);
    case AtElif(text, exp, h, more) =>
      var body := Flat(h) + (FlatTail(more) + rest);
      assert lines == [Elif(text, exp)] + body;
      GobbleStops(w, Elif(text, exp), body, trace);
      var v := w.test(exp, trace);
      if v == True { TakesGroup(w, h, more, rest, trace, recursion, failOK); }
      else { LeavesGroup(w, h, more, rest, trace, recursion, failOK, v == GuessFalse); }
  }

  /** On every well-nested file find_includes() comes to the end and has done exactly the defines,
      undefs and includes of one group of each if-section, in order. */
  lemma ObeysStructure(w: World, g: Group, failOK: bool)
    requires Nested(g)
    ensures FindIncludes(w, Flat(g), [], 0, failOK) == Reading(END, [], Run(w, g, [], failOK))
  {
    FindsGroup(w, g, [], [], 0, failOK);
    assert Flat(g) + [] == Flat(g);
  }
}
