/** find_includes() and gobble() as they read a file line by line. */
module DirectiveReader {
  import opened Directives

  class Reader {
    const w: World
    const lines: seq<Line>
    var pos: nat
    var trace: seq<Event>
    var finished: bool

    constructor (w: World, lines: seq<Line>)
      ensures Valid() && this.w == w && this.lines == lines && Left() == lines && trace == [] && !finished
    {
      this.w := w;
      this.lines := lines;
      pos, trace, finished := 0, [], false;
    }

    ghost predicate Valid()
      reads this
    {
      pos <= |lines|
    }

    /** What has not been read yet. */
    ghost function Left(): seq<Line>
      requires Valid()
      reads this
    {
      lines[pos..]
    }

    method Gobble() returns (kind: Kind)
      requires Valid()
      modifies this`pos
      ensures Valid() && old(pos) <= pos && (kind != END ==> old(pos) < pos)
      ensures (kind, Left()) == Directives.Gobble(w, old(Left()), trace)
      decreases |lines| - pos, 0
    {
      hide Directives.Gobble, GobbleRest;
      while pos < |lines|
        invariant Valid() && old(pos) <= pos
        invariant Directives.Gobble(w, Left(), trace) == Directives.Gobble(w, old(Left()), trace)
        decreases |lines| - pos
      {
        var line := lines[pos];
        assert lines[pos..] == [line] + lines[pos + 1..];
        if line.Else? || line.Elif? || line.Endif? { GobbleStops(w, line, lines[pos + 1..], trace); }
        else { GobbleGoesOn(w, Left(), trace); }
        pos := pos + 1;
        if line.If? || line.Ifdef? || line.Ifndef? {
          ghost var t := Left();
          kind := Gobble();
          GobbleOthers(kind, |t|);
          assert Left() == GobbleSection(w, t, trace);
        } else if line.Else? {
          return ELSE;
        } else if line.Endif? {
          return ENDIF;
        } else if line.Elif? {
          return ElifKind(w.test(line.exp, trace));
        }
      }
      NothingToGobble(w, Left(), trace);
      kind := END;
    }

    /** The groups behind one that ended with `kind`. */
    method GobbleOthers(kind: Kind, ghost size: nat)
      requires Valid() && |lines| - pos <= size && (kind != END ==> |lines| - pos < size)
      modifies this`pos
      ensures Valid() && old(pos) <= pos && Left() == GobbleRest(w, kind, old(Left()), trace, size)
      decreases |lines| - pos, 1
    {
      var k := kind;
      while IsElif(k)
        invariant Valid() && old(pos) <= pos && (k != END ==> |lines| - pos < size)
        invariant GobbleRest(w, k, Left(), trace, size) == GobbleRest(w, kind, old(Left()), trace, size)
        decreases |lines| - pos, IsElif(k)
      {
        ghost var before := Left();
        k := Gobble();
        SizeIsNothing(w, k, Left(), trace, |before|, size);
      }
      if k == ELSE { k := Gobble(); }
    }

    method FindIncludes(recursion: nat, failOK: bool) returns (kind: Kind)
      requires Valid()
      modifies this
      ensures Valid() && old(pos) <= pos && (kind != END ==> old(pos) < pos)
      ensures Reading(kind, Left(), trace) == Directives.FindIncludes(w, old(Left()), old(trace), recursion, failOK)
      ensures finished == (old(finished) || kind == END)
      decreases |lines| - pos, 0
    {
      hide DoIf, DoIfFalse, Directives.Gobble;
      while pos < |lines|
        invariant Valid() && old(pos) <= pos && (finished == old(finished) || pos == |lines|)
        invariant old(finished) ==> finished
        invariant Directives.FindIncludes(w, Left(), trace, recursion, failOK) ==
                  Directives.FindIncludes(w, old(Left()), old(trace), recursion, failOK)
        decreases |lines| - pos
      {
        var line := lines[pos];
        assert lines[pos..][1..] == lines[pos + 1..];
        pos := pos + 1;
        if line.If? {
          var v := w.test(line.exp, trace);
          Section(v == True, v == GuessFalse, recursion, failOK);
        } else if line.Ifdef? {
          Section(w.defined(line.sym, trace), false, recursion, failOK);
        } else if line.Ifndef? {
          Section(!w.defined(line.sym, trace), false, recursion, failOK);
        } else if line.Else? || line.Elif? {
          if recursion > 0 { return if line.Else? then ELSE else ELIF; }
          var k := Gobble();
          trace := trace + [Event(Define(line.text), failOK)];
        } else if line.Endif? {
          if recursion > 0 { return ENDIF; }
          trace := trace + [Event(Define(line.text), failOK)];
        } else {
          trace := trace + Act(line, failOK);
        }
      }
      finished := true;
      kind := END;
    }

    /** One if-section: `take` says whether its first group is taken. */
    method Section(take: bool, guess: bool, recursion: nat, failOK: bool)
      requires Valid()
      modifies this
      ensures Valid() && old(pos) <= pos && (finished == old(finished) || pos == |lines|) && (old(finished) ==> finished)
      ensures (Left(), trace) == if take then DoIf(w, old(Left()), old(trace), recursion, failOK)
                                 else DoIfFalse(w, old(Left()), old(trace), recursion, failOK, guess)
      decreases |lines| - pos, 1
    {
      var doif, unsure := take, guess;
      ghost var goal := if take then DoIf(w, Left(), trace, recursion, failOK)
                        else DoIfFalse(w, Left(), trace, recursion, failOK, guess);
      while !doif
        invariant Valid() && old(pos) <= pos && trace == old(trace) && finished == old(finished)
        invariant goal == if doif then DoIf(w, Left(), trace, recursion, failOK)
                          else DoIfFalse(w, Left(), trace, recursion, failOK, unsure)
        decreases |lines| - pos, !doif
      {
        var kind := Gobble();
        if kind == ELSE {
          var k := FindIncludes(recursion + 1, unsure || failOK);
          return;
        } else if kind == ELIF {
          doif := true;
        } else if IsElif(kind) {
          unsure := kind == ELIFGUESSFALSE;
        } else {
          return;
        }
      }
      ghost var size: nat := |lines| - pos;
      var kind := FindIncludes(recursion + 1, failOK);
      GobbleOthers(kind, size);
    }
  }

  /** Reading a whole well-nested file. */
  method ReadFile(w: World, ghost g: Group, lines: seq<Line>, failOK: bool) returns (trace: seq<Event>, finished: bool)
    requires Nested(g) && lines == Flat(g)
    ensures trace == Run(w, g, [], failOK) && finished
  {
    ObeysStructure(w, g, failOK);
    hide Nested, Flat, Run, Directives.FindIncludes;
    var r := new Reader(w, lines);
    var kind := r.FindIncludes(0, failOK);
    return r.trace, r.finished;
  }
}
