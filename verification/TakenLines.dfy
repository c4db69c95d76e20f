/** Which lines of a well-nested file are performed: those of one group of each section that are
    definitions, includes, or undefinitions of a name. */
module TakenLines {
  import opened Directives

  /** A line of a group that is taken; `afterGuess` says that the group, or one around it, is the #else
      group behind a condition that was a guess. */
  datatype Chosen = Chosen(line: Line, afterGuess: bool)

  /** The lines of the groups that are taken, in order, when `trace` has been done before. */
  function Taken(w: World, g: Group, trace: seq<Event>, failOK: bool, afterGuess: bool): seq<Chosen>
    decreases g
  {
    match g
    case Done(_) => []
    case Next(i, r) =>
      TakenOfItem(w, i, trace, failOK, afterGuess) +
      Taken(w, r, RunItem(w, i, trace, failOK || afterGuess), failOK, afterGuess)
  }

  function TakenOfItem(w: World, i: Item, trace: seq<Event>, failOK: bool, afterGuess: bool): seq<Chosen>
    decreases i
  {
    match i
    case Plain(line) => [Chosen(line, afterGuess)]
    case Section(t, g, tail) =>
      match Meaning(w, t, trace)
      case True => Taken(w, g, trace, failOK, afterGuess)
      case False => TakenBehind(w, tail, trace, failOK, afterGuess, false)
      case GuessFalse => TakenBehind(w, tail, trace, failOK, afterGuess, true)
  }

  /** Behind a group that is not taken, whose condition may have been a guess. */
  function TakenBehind(w: World, t: Tail, trace: seq<Event>, failOK: bool, afterGuess: bool, guess: bool): seq<Chosen>
    decreases t
  {
    match t
    case AtEndif(_) => []
    case AtElse(_, g, _) => Taken(w, g, trace, failOK, afterGuess || guess)
    case AtElif(_, exp, g, tail) =>
      match w.test(exp, trace)
      case True => Taken(w, g, trace, failOK, afterGuess)
      case False => TakenBehind(w, tail, trace, failOK, afterGuess, false)
      case GuessFalse => TakenBehind(w, tail, trace, failOK, afterGuess, true)
  }

  predicate Performs(line: Line) {
    match line
    case Define(_) => true
    case Include(_, _) => true
    case Undef(name) => name != ""
    case _ => false
  }

  /** What is to be done for these lines, and which failures are to be kept quiet. */
  function Performed(cs: seq<Chosen>, failOK: bool): (r: seq<Event>)
    decreases |cs|
  {
    if cs == [] then []
    else
      var rest := Performed(cs[1..], failOK);
      if Performs(cs[0].line) then [Event(cs[0].line, failOK || cs[0].afterGuess)] + rest else rest
  }

  lemma {:induction false} PerformedJoin(a: seq<Chosen>, b: seq<Chosen>, failOK: bool)
    ensures Performed(a + b, failOK) == Performed(a, failOK) + Performed(b, failOK)
    decreases |a|
  {
    if a == [] {
      assert a + b == b;
    } else {
      assert (a + b)[1..] == a[1..] + b;
      PerformedJoin(a[1..], b, failOK);
    }
  }

  /** A well-nested piece does what the lines of its groups that are taken ask for, and nothing else. */
  lemma {:induction false} RunPerforms(w: World, g: Group, trace: seq<Event>, failOK: bool, afterGuess: bool)
    ensures Run(w, g, trace, failOK || afterGuess) == trace + Performed(Taken(w, g, trace, failOK, afterGuess), failOK)
    decreases g
  {
    match g
    case Done(_) =>
    case Next(i, r) =>
      var more := RunItem(w, i, trace, failOK || afterGuess);
      ItemPerforms(w, i, trace, failOK, afterGuess);
      RunPerforms(w, r, more, failOK, afterGuess);
      PerformedJoin(TakenOfItem(w, i, trace, failOK, afterGuess), Taken(w, r, more, failOK, afterGuess), failOK);
  }

  lemma {:induction false} ItemPerforms(w: World, i: Item, trace: seq<Event>, failOK: bool, afterGuess: bool)
    ensures RunItem(w, i, trace, failOK || afterGuess) == trace + Performed(TakenOfItem(w, i, trace, failOK, afterGuess), failOK)
    decreases i
  {
    match i
    case Plain(line) => LinePerforms(line, failOK, afterGuess);
    case Section(t, g, tail) =>
      var v := Meaning(w, t, trace);
      if v == True { RunPerforms(w, g, trace, failOK, afterGuess); }
      else { TailPerforms(w, tail, trace, failOK, afterGuess, v == GuessFalse); }
  }

  lemma LinePerforms(line: Line, failOK: bool, afterGuess: bool)
    ensures Act(line, failOK || afterGuess) == Performed([Chosen(line, afterGuess)], failOK)
  {
    assert [Chosen(line, afterGuess)][1..] == [];
  }

  lemma {:induction false} TailPerforms(w: World, t: Tail, trace: seq<Event>, failOK: bool, afterGuess: bool, guess: bool)
    ensures RunTail(w, t, trace, failOK || afterGuess, guess) ==
            trace + Performed(TakenBehind(w, t, trace, failOK, afterGuess, guess), failOK)
    decreases t
  {
    match t
    case AtEndif(_) =>
    case AtElse(_, g, _) =>
      assert guess || (failOK || afterGuess) == (failOK || (afterGuess || guess));
      RunPerforms(w, g, trace, failOK, afterGuess || guess);
    case AtElif(_, exp, g, tail) =>
      var v := w.test(exp, trace);
      if v == True { RunPerforms(w, g, trace, failOK, afterGuess); }
      else { TailPerforms(w, tail, trace, failOK, afterGuess, v == GuessFalse); }
  }

  /** find_includes() performs, for a well-nested file, exactly the definitions, the includes and the
      undefinitions of a name among the lines of the groups that are taken, in their order; a failure to
      find a file is kept quiet where the reader is told so and in the #else groups behind a guess. */
  lemma PerformsTaken(w: World, g: Group, failOK: bool)
    requires Nested(g)
    ensures FindIncludes(w, Flat(g), [], 0, failOK) == Reading(END, [], Performed(Taken(w, g, [], failOK, false), failOK))
  {
    ObeysStructure(w, g, failOK);
    RunPerforms(w, g, [], failOK, false);
  }

  /** For example a file that is a single directive. */
  lemma SingleLine(w: World, line: Line, failOK: bool)
    requires IsPlain(line)
    ensures FindIncludes(w, [line], [], 0, failOK).trace == if Performs(line) then [Event(line, failOK)] else []
  {
    var g := Next(Plain(line), Done(0));
    assert Flat(g) == [line] + [] == [line];
    PerformsTaken(w, g, failOK);
    assert Taken(w, g, [], failOK, false) == [Chosen(line, false)] + [] == [Chosen(line, false)];
    assert [Chosen(line, false)][1..] == [];
  }

  /** And one that is read under a condition on a symbol. */
  lemma GuardedLine(w: World, sym: string, line: Line, failOK: bool)
    requires IsPlain(line) && Performs(line)
    ensures FindIncludes(w, [Ifdef(sym), line, Endif("")], [], 0, failOK).trace ==
            if w.defined(sym, []) then [Event(line, failOK)] else []
    ensures FindIncludes(w, [Ifndef(sym), line, Endif("")], [], 0, failOK).trace ==
            if w.defined(sym, []) then [] else [Event(line, failOK)]
  {
    OneSection(w, OnIfdef(sym), line, failOK);
    OneSection(w, OnIfndef(sym), line, failOK);
  }

  lemma OneSection(w: World, t: Test, line: Line, failOK: bool)
    requires IsPlain(line) && Performs(line)
    ensures FindIncludes(w, [TestLine(t), line, Endif("")], [], 0, failOK).trace ==
            if Meaning(w, t, []) == True then [Event(line, failOK)] else []
  {
    var body := Next(Plain(line), Done(0));
    var section := Section(t, body, AtEndif(""));
    var g := Next(section, Done(0));
    assert Flat(Done(0)) == [] && Nested(Done(0)) && FlatItem(Plain(line)) == [line] && NestedItem(Plain(line));
    assert Flat(body) == [line] + [] == [line] && Nested(body);
    assert FlatItem(section) == [TestLine(t)] + ([line] + [Endif("")]) && NestedItem(section);
    assert Flat(g) == FlatItem(section) + [] == [TestLine(t), line, Endif("")];
    PerformsTaken(w, g, failOK);
    assert TakenOfItem(w, section, [], failOK, false) == if Meaning(w, t, []) == True then Taken(w, body, [], failOK, false) else [];
    assert Taken(w, g, [], failOK, false) == TakenOfItem(w, section, [], failOK, false) + [];
    assert Taken(w, body, [], failOK, false) == [Chosen(line, false)] + [] == [Chosen(line, false)];
    assert [Chosen(line, false)][1..] == [];
  }
}
