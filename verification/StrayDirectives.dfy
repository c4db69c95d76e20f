/** Files that are not well nested.  Which lines belong to a section does not depend on its conditions; an
    #else, #elif or #endif that belongs to none is taken for a definition. */
module StrayDirectives {
  import opened Directives

  /** The conditions of nobody's world. */
  function Blind(): World {
    World((exp, trace) => True, (sym, trace) => false)
  }

  /** Where a group that begins with `lines` ends, and what follows. */
  function Stops(lines: seq<Line>): (r: (Kind, seq<Line>))
    ensures |r.1| <= |lines| && (r.0 != END ==> |r.1| < |lines|)
  {
    Gobble(Blind(), lines, [])
  }

  /** What follows the section whose first group begins with `lines`. */
  function Past(lines: seq<Line>): (r: seq<Line>)
    ensures |r| <= |lines|
  {
    GobbleSection(Blind(), lines, [])
  }

  predicate SameStop(a: Kind, b: Kind) {
    a == b || (IsElif(a) && IsElif(b))
  }

  lemma PastIs(lines: seq<Line>)
    ensures var r := Stops(lines);
            Past(lines) == if IsElif(r.0) then Past(r.1) else if r.0 == ELSE then Stops(r.1).1 else r.1
  {
    SectionGoesOn(Blind(), lines, []);
  }

  // ----- both readers go by the lines alone -----

  lemma {:induction false} GobblesAlike(w: World, lines: seq<Line>, trace: seq<Event>)
    ensures var r := Gobble(w, lines, trace); SameStop(r.0, Stops(lines).0) && r.1 == Stops(lines).1
    decreases |lines|, 0
  {
    if lines != [] {
      var t := lines[1..];
      match lines[0]
      case If(_) => SectionsAlike(w, t, trace); GobblesAlike(w, Past(t), trace);
      case Ifdef(_) => SectionsAlike(w, t, trace); GobblesAlike(w, Past(t), trace);
      case Ifndef(_) => SectionsAlike(w, t, trace); GobblesAlike(w, Past(t), trace);
      case Else(_) =>
      case Endif(_) =>
      case Elif(_, _) =>
      case _ => GobblesAlike(w, t, trace);
    }
  }

  lemma {:induction false} SectionsAlike(w: World, lines: seq<Line>, trace: seq<Event>)
    ensures GobbleSection(w, lines, trace) == Past(lines)
    decreases |lines|, 1
  {
    GobblesAlike(w, lines, trace);
    var r := Gobble(w, lines, trace);
    RestsAlike(w, r.0, Stops(lines).0, r.1, trace, |lines|);
  }

  lemma {:induction false} RestsAlike(w: World, k: Kind, k': Kind, lines: seq<Line>, trace: seq<Event>, size: nat)
    requires SameStop(k, k') && |lines| <= size && (k != END ==> |lines| < size)
    ensures GobbleRest(w, k, lines, trace, size) == GobbleRest(Blind(), k', lines, [], size)
    decreases size, 0
  {
    if IsElif(k) { SectionsAlike(w, lines, trace); } else if k == ELSE { GobblesAlike(w, lines, trace); }
  }

  /** Inside a section find_includes() stops at the line at which gobble() would. */
  lemma {:induction false} FindsAlike(w: World, lines: seq<Line>, trace: seq<Event>, recursion: nat, failOK: bool)
    requires recursion > 0
    ensures var r := FindIncludes(w, lines, trace, recursion, failOK);
            SameStop(r.kind, Stops(lines).0) && r.rest == Stops(lines).1
    decreases |lines|, 0
  {
    if lines != [] {
      var t := lines[1..];
      match lines[0]
      case If(exp) => ItemAlike(w, lines, trace, recursion, failOK);
      case Ifdef(_) => ItemAlike(w, lines, trace, recursion, failOK);
      case Ifndef(_) => ItemAlike(w, lines, trace, recursion, failOK);
      case Else(_) =>
      case Endif(_) =>
      case Elif(_, _) =>
      case _ => FindsAlike(w, t, trace + Act(lines[0], failOK), recursion, failOK);
    }
  }

  predicate Opens(line: Line) {
    line.If? || line.Ifdef? || line.Ifndef?
  }

  /** What a section does, whichever of its groups is taken. */
  function Section(w: World, line: Line, t: seq<Line>, trace: seq<Event>, recursion: nat, failOK: bool): (r: (seq<Line>, seq<Event>))
    requires Opens(line)
    ensures |r.0| <= |t|
  {
    var v := match line
      case If(exp) => w.test(exp, trace)
      case Ifdef(sym) => if w.defined(sym, trace) then True else False
      case Ifndef(sym) => if w.defined(sym, trace) then False else True;
    if v == True then DoIf(w, t, trace, recursion, failOK)
    else DoIfFalse(w, t, trace, recursion, failOK, v == GuessFalse)
  }

  lemma SectionIs(w: World, lines: seq<Line>, trace: seq<Event>, recursion: nat, failOK: bool)
    requires lines != [] && Opens(lines[0])
    ensures var s := Section(w, lines[0], lines[1..], trace, recursion, failOK);
            FindIncludes(w, lines, trace, recursion, failOK) == FindIncludes(w, s.0, s.1, recursion, failOK)
  {
  }

  lemma {:induction false} ItemAlike(w: World, lines: seq<Line>, trace: seq<Event>, recursion: nat, failOK: bool)
    requires lines != [] && Opens(lines[0]) && recursion > 0
    ensures var r := FindIncludes(w, lines, trace, recursion, failOK);
            SameStop(r.kind, Stops(lines).0) && r.rest == Stops(lines).1
    decreases |lines| - 1, 3
  {
    var t := lines[1..];
    SectionIs(w, lines, trace, recursion, failOK);
    SectionAlike(w, lines[0], t, trace, recursion, failOK);
    SectionsAlike(Blind(), t, []);
    FindsAlike(w, Past(t), Section(w, lines[0], t, trace, recursion, failOK).1, recursion, failOK);
  }

  /** However its conditions come out, a section ends at the same line. */
  lemma {:induction false} SectionAlike(w: World, line: Line, t: seq<Line>, trace: seq<Event>, recursion: nat, failOK: bool)
    requires Opens(line)
    ensures Section(w, line, t, trace, recursion, failOK).0 == Past(t)
    decreases |t|, 2
  {
    DoIfAlike(w, t, trace, recursion, failOK);
    DoIfFalseAlike(w, t, trace, recursion, failOK, false);
    DoIfFalseAlike(w, t, trace, recursion, failOK, true);
  }

  lemma {:induction false} DoIfAlike(w: World, lines: seq<Line>, trace: seq<Event>, recursion: nat, failOK: bool)
    ensures DoIf(w, lines, trace, recursion, failOK).0 == Past(lines)
    decreases |lines|, 1
  {
    FindsAlike(w, lines, trace, recursion + 1, failOK);
    var f := FindIncludes(w, lines, trace, recursion + 1, failOK);
    RestsAlike(w, f.kind, Stops(lines).0, f.rest, f.trace, |lines|);
  }

  lemma {:induction false} DoIfFalseAlike(w: World, lines: seq<Line>, trace: seq<Event>, recursion: nat, failOK: bool, guess: bool)
    ensures DoIfFalse(w, lines, trace, recursion, failOK, guess).0 == Past(lines)
    decreases |lines|, 1
  {
    GobblesAlike(w, lines, trace);
    PastIs(lines);
    var g := Gobble(w, lines, trace);
    hide Gobble, GobbleSection, Stops, Past;
    if g.0 == ELSE { FindsAlike(w, g.1, trace, recursion + 1, guess || failOK); }
    else if g.0 == ELIF { DoIfAlike(w, g.1, trace, recursion, failOK); }
    else if IsElif(g.0) { DoIfFalseAlike(w, g.1, trace, recursion, failOK, g.0 == ELIFGUESSFALSE); }
  }

  // ----- definitions that nobody asked for -----

  /** The lines that close or divide a section when none is open, in order.  What follows such an #else or
      #elif is passed over up to the next line of the kind. */
  function Strays(lines: seq<Line>): seq<string>
    decreases |lines|
  {
    if lines == [] then []
    else
      var t := lines[1..];
      match lines[0]
      case Else(text) => [text] + Strays(Stops(t).1)
      case Elif(text, _) => [text] + Strays(Stops(t).1)
      case Endif(text) => [text] + Strays(t)
      case _ => Strays(if Opens(lines[0]) then Past(t) else t)
  }

  /** No #define of these lines defines `text`. */
  predicate Unasked(lines: seq<Line>, text: string) {
    forall i | 0 <= i < |lines| :: lines[i] != Define(text)
  }

  ghost predicate Defines(trace: seq<Event>, text: string) {
    exists failOK :: Event(Define(text), failOK) in trace
  }

  lemma DefinesThen(trace: seq<Event>, def: string, failOK: bool, text: string)
    ensures Defines(trace + [Event(Define(def), failOK)], text) <==> Defines(trace, text) || def == text
  {
    var e := trace + [Event(Define(def), failOK)];
    if Defines(trace, text) {
      var f :| Event(Define(text), f) in trace;
      assert Event(Define(text), f) in e;
    }
    if def == text { assert e[|trace|] in e; assert Event(Define(text), failOK) in e; }
  }

  lemma ActAsks(trace: seq<Event>, line: Line, failOK: bool, text: string)
    requires line != Define(text)
    ensures Defines(trace + Act(line, failOK), text) <==> Defines(trace, text)
  {
    var e := trace + Act(line, failOK);
    if Defines(trace, text) {
      var f :| Event(Define(text), f) in trace;
      assert Event(Define(text), f) in e;
    }
  }

  lemma {:induction false} StopsUnasked(lines: seq<Line>, text: string)
    requires Unasked(lines, text)
    ensures Unasked(Stops(lines).1, text)
    decreases |lines|, 0
  {
    if lines != [] {
      var t := lines[1..];
      if Opens(lines[0]) {
        PastUnasked(t, text);
        StopsUnasked(Past(t), text);
      } else if !lines[0].Else? && !lines[0].Elif? && !lines[0].Endif? {
        StopsUnasked(t, text);
      }
    }
  }

  lemma {:induction false} PastUnasked(lines: seq<Line>, text: string)
    requires Unasked(lines, text)
    ensures Unasked(Past(lines), text)
    decreases |lines|, 1
  {
    StopsUnasked(lines, text);
    PastIs(lines);
    var r := Stops(lines);
    if IsElif(r.0) { PastUnasked(r.1, text); } else if r.0 == ELSE { StopsUnasked(r.1, text); }
  }

  /** Inside a section nothing is defined that no #define asks for. */
  lemma {:induction false} GroupAsks(w: World, lines: seq<Line>, trace: seq<Event>, recursion: nat, failOK: bool, text: string)
    requires recursion > 0 && Unasked(lines, text)
    ensures Defines(FindIncludes(w, lines, trace, recursion, failOK).trace, text) <==> Defines(trace, text)
    decreases |lines|, 0
  {
    hide Defines;
    if lines != [] {
      var t := lines[1..];
      if Opens(lines[0]) {
        SectionIs(w, lines, trace, recursion, failOK);
        SectionAsks(w, lines[0], t, trace, recursion, failOK, text);
        GroupAsks(w, Past(t), Section(w, lines[0], t, trace, recursion, failOK).1, recursion, failOK, text);
      } else if !lines[0].Else? && !lines[0].Elif? && !lines[0].Endif? {
        ActAsks(trace, lines[0], failOK, text);
        GroupAsks(w, t, trace + Act(lines[0], failOK), recursion, failOK, text);
      }
    }
  }

  lemma {:induction false} SectionAsks(w: World, line: Line, t: seq<Line>, trace: seq<Event>, recursion: nat, failOK: bool, text: string)
    requires Opens(line) && Unasked(t, text)
    ensures var s := Section(w, line, t, trace, recursion, failOK);
            s.0 == Past(t) && Unasked(s.0, text) && (Defines(s.1, text) <==> Defines(trace, text))
    decreases |t|, 3
  {
    hide Defines;
    SectionAlike(w, line, t, trace, recursion, failOK);
    PastUnasked(t, text);
    GroupAsks(w, t, trace, recursion + 1, failOK, text);
    DoIfFalseAsks(w, t, trace, recursion, failOK, false, text);
    DoIfFalseAsks(w, t, trace, recursion, failOK, true, text);
  }

  lemma {:induction false} DoIfFalseAsks(w: World, lines: seq<Line>, trace: seq<Event>, recursion: nat, failOK: bool, guess: bool, text: string)
    requires Unasked(lines, text)
    ensures Defines(DoIfFalse(w, lines, trace, recursion, failOK, guess).1, text) <==> Defines(trace, text)
    decreases |lines|, 1
  {
    hide Defines;
    GobblesAlike(w, lines, trace);
    StopsUnasked(lines, text);
    var g := Gobble(w, lines, trace);
    if g.0 == ELSE { GroupAsks(w, g.1, trace, recursion + 1, guess || failOK, text); }
    else if g.0 == ELIF { GroupAsks(w, g.1, trace, recursion + 1, failOK, text); }
    else if IsElif(g.0) { DoIfFalseAsks(w, g.1, trace, recursion, failOK, g.0 == ELIFGUESSFALSE, text); }
  }

  /** A file performs a definition that no #define asks for if and only if a line that belongs to no
      section stands for it. */
  lemma {:induction false} StrayDefinesFrom(w: World, lines: seq<Line>, trace: seq<Event>, failOK: bool, text: string)
    requires Unasked(lines, text)
    ensures Defines(FindIncludes(w, lines, trace, 0, failOK).trace, text) <==> Defines(trace, text) || text in Strays(lines)
    decreases |lines|, 0
  {
    hide Defines;
    if lines != [] {
      var t := lines[1..];
      if lines[0].Else? || lines[0].Elif? {
        StrayAsks(w, lines, trace, failOK, lines[0].text, text);
      } else if lines[0].Endif? {
        DefinesThen(trace, lines[0].text, failOK, text);
        StrayDefinesFrom(w, t, trace + [Event(Define(lines[0].text), failOK)], failOK, text);
      } else if Opens(lines[0]) {
        SectionIs(w, lines, trace, 0, failOK);
        SectionAsks(w, lines[0], t, trace, 0, failOK, text);
        StrayDefinesFrom(w, Past(t), Section(w, lines[0], t, trace, 0, failOK).1, failOK, text);
      } else {
        ActAsks(trace, lines[0], failOK, text);
        StrayDefinesFrom(w, t, trace + Act(lines[0], failOK), failOK, text);
      }
    }
  }

  lemma {:induction false} StrayAsks(w: World, lines: seq<Line>, trace: seq<Event>, failOK: bool, def: string, text: string)
    requires lines != [] && Unasked(lines, text) && (lines[0].Else? || lines[0].Elif?) && lines[0].text == def
    ensures Defines(FindIncludes(w, lines, trace, 0, failOK).trace, text) <==> Defines(trace, text) || text in Strays(lines)
    decreases |lines| - 1, 1
  {
    hide Defines;
    var t := lines[1..];
    GobblesAlike(w, t, trace);
    StopsUnasked(t, text);
    DefinesThen(trace, def, failOK, text);
    StrayDefinesFrom(w, Stops(t).1, trace + [Event(Define(def), failOK)], failOK, text);
  }

  lemma StrayDefines(w: World, lines: seq<Line>, failOK: bool, text: string)
    requires Unasked(lines, text)
    ensures Defines(FindIncludes(w, lines, [], 0, failOK).trace, text) <==> text in Strays(lines)
  {
    StrayDefinesFrom(w, lines, [], failOK, text);
  }

  // ----- well-nested pieces have no such lines -----

  lemma {:induction false} NestedHasNoStrays(g: Group, rest: seq<Line>)
    requires Nested(g)
    ensures Strays(Flat(g) + rest) == Strays(rest)
    decreases g
  {
    match g
    case Done(_) => assert [] + rest == rest;
    case Next(i, r) =>
      var more := Flat(r) + rest;
      assert Flat(g) + rest == FlatItem(i) + more;
      match i {
        case Plain(line) => assert ([line] + more)[1..] == more;
        case Section(t, first, tail) =>
          var body := Flat(first) + (FlatTail(tail) + more);
          assert FlatItem(i) + more == [TestLine(t)] + body;
          assert ([TestLine(t)] + body)[1..] == body;
          SectionPasses(first, tail, more);
      }
      NestedHasNoStrays(r, rest);
  }

  lemma SectionPasses(first: Group, tail: Tail, rest: seq<Line>)
    requires Nested(first) && NestedTail(tail)
    ensures Past(Flat(first) + (FlatTail(tail) + rest)) == rest
  {
    GobblesGroup(Blind(), first, FlatTail(tail) + rest, []);
    GobblesTail(Blind(), tail, rest, []);
    SectionOfTail(Blind(), Flat(first) + (FlatTail(tail) + rest), FlatTail(tail) + rest, [], rest);
  }
}
