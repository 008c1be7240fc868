/** Conditional lines in configuration scripts: the stack machine and the tree it stands for. */
module ConfigScript {
  import opened Wrappers

  datatype Value = Flag | Text(text: string)

  /** Script variables and global variables. */
  datatype Env = Env(variables: map<string, Value>, gvariables: map<string, Value>) {
    predicate Defines(name: string) { name in variables || name in gvariables }
  }

  /** A line as the launcher's dispatch tells them apart; `Other` is any line that leaves the variables alone. */
  datatype Line =
    | If(name: string, wanted: bool)
    | Elif(name: string, wanted: bool)
    | Else
    | EndIf
    | Set(global: bool, name: string, value: Value)
    | Unset(global: bool, name: string)
    | Other(text: string)

  /** What running lines did: the variables now, and each executed line with the variables it saw. */
  datatype Progress = Progress(env: Env, executed: seq<(Line, Env)>)

  predicate IsConditional(l: Line) { l.If? || l.Elif? || l.Else? || l.EndIf? }

  function After(env: Env, l: Line): Env {
    match l
    case Set(global, name, value) =>
      if global then env.(gvariables := env.gvariables[name := value])
      else env.(variables := env.variables[name := value])
    case Unset(global, name) =>
      if global then env.(gvariables := env.gvariables - {name}) else env.(variables := env.variables - {name})
    case _ => env
  }

  function Do(p: Progress, l: Line): Progress {
    Progress(After(p.env, l), p.executed + [(l, p.env)])
  }

  predicate Holds(env: Env, name: string, wanted: bool) {
    env.Defines(name) == wanted
  }

  // ----- Scripts as trees, and what running one means -------------------------------------------

  datatype Script =
    | Done
    | Plain(line: Line, rest: Script)
    | Cond(name: string, wanted: bool, body: Script, others: Branches, rest: Script)

  datatype Branches =
    | NoMore
    | OrIf(name: string, wanted: bool, body: Script, others: Branches)
    | OrElse(body: Script, others: Branches)

  /** Runs the first branch whose condition holds. */
  function Exec(s: Script, p: Progress): Progress {
    match s
    case Done => p
    case Plain(line, rest) => Exec(rest, Do(p, line))
    case Cond(name, wanted, body, others, rest) =>
      Exec(rest, if Holds(p.env, name, wanted) then Exec(body, p) else ExecBranches(others, p))
  }

  function ExecBranches(b: Branches, p: Progress): Progress {
    match b
    case NoMore => p
    case OrIf(name, wanted, body, others) =>
      if Holds(p.env, name, wanted) then Exec(body, p) else ExecBranches(others, p)
    case OrElse(body, others) => Exec(body, p)
  }

  predicate WellFormed(s: Script) {
    match s
    case Done => true
    case Plain(line, rest) => !IsConditional(line) && WellFormed(rest)
    case Cond(_, _, body, others, rest) => WellFormed(body) && WellFormedBranches(others) && WellFormed(rest)
  }

  predicate WellFormedBranches(b: Branches) {
    match b
    case NoMore => true
    case OrIf(_, _, body, others) => WellFormed(body) && WellFormedBranches(others)
    case OrElse(body, others) => WellFormed(body) && WellFormedBranches(others)
  }

  function Flatten(s: Script): seq<Line> {
    match s
    case Done => []
    case Plain(line, rest) => [line] + Flatten(rest)
    case Cond(name, wanted, body, others, rest) =>
      [Line.If(name, wanted)] + (Flatten(body) + (FlattenBranches(others) + Flatten(rest)))
  }

  /** The branches and the line that ends them. */
  function FlattenBranches(b: Branches): seq<Line> {
    match b
    case NoMore => [EndIf]
    case OrIf(name, wanted, body, others) => [Elif(name, wanted)] + (Flatten(body) + FlattenBranches(others))
    case OrElse(body, others) => [Else] + (Flatten(body) + FlattenBranches(others))
  }

  // ----- The stack machine ----------------------------------------------------------------------

  const UNMATCHED: nat := 0
  const MATCHES: nat := 1
  const DONE_MATCHING: nat := 2

  type Stack = seq<nat>

  function Top(s: Stack): nat
    requires s != []
  {
    s[|s| - 1]
  }

  function WithTop(s: Stack, v: nat): Stack
    requires s != []
  {
    s[..|s| - 1] + [v]
  }

  function StartIf(s: Stack): Stack
    requires s != []
  {
    s + [if Top(s) == MATCHES then UNMATCHED else DONE_MATCHING]
  }

  function Matched(state: nat, matches: bool): nat {
    if state == MATCHES || (state == UNMATCHED && matches) then state + 1 else state
  }

  function SetMatch(s: Stack, matches: bool): Option<Stack>
    requires s != []
  {
    if |s| == 1 then None else Some(WithTop(s, Matched(Top(s), matches)))
  }

  function EndOfIf(s: Stack): Option<Stack>
    requires s != []
  {
    if |s| == 1 then None else Some(s[..|s| - 1])
  }

  datatype Machine = Machine(stack: Stack, progress: Progress)

  function Step(m: Machine, l: Line): Option<Machine>
    requires m.stack != []
  {
    var env := m.progress.env;
    match l
    case If(name, wanted) =>
      (match SetMatch(StartIf(m.stack), Holds(env, name, wanted))
       case Some(s) => Some(m.(stack := s))
       case None => None)
    case Elif(name, wanted) =>
      (match SetMatch(m.stack, Holds(env, name, wanted))
       case Some(s) => Some(m.(stack := s))
       case None => None)
    case Else =>
      (match SetMatch(m.stack, true)
       case Some(s) => Some(m.(stack := s))
       case None => None)
    case EndIf =>
      (match EndOfIf(m.stack)
       case Some(s) => Some(m.(stack := s))
       case None => None)
    case _ => Some(if Top(m.stack) == MATCHES then m.(progress := Do(m.progress, l)) else m)
  }

  lemma StepStack(m: Machine, l: Line)
    requires m.stack != [] && Step(m, l).Some?
    ensures Step(m, l).value.stack != []
  {
  }

  function Run(m: Machine, lines: seq<Line>): (r: Option<Machine>)
    requires m.stack != []
    ensures r.Some? ==> r.value.stack != []
    decreases |lines|
  {
    if lines == [] then Some(m)
    else
      match Step(m, lines[0])
      case None => None
      case Some(n) => (StepStack(m, lines[0]); Run(n, lines[1..]))
  }

  /** The whole script: it fails unless the stack ends as it began. */
  function Launched(lines: seq<Line>, env: Env): Option<Progress> {
    match Run(Machine([MATCHES], Progress(env, [])), lines)
    case None => None
    case Some(m) => if |m.stack| != 1 then None else Some(m.progress)
  }

  // ----- The machine runs the tree --------------------------------------------------------------

  lemma {:induction false} RunAppend(m: Machine, a: seq<Line>, b: seq<Line>)
    requires m.stack != []
    ensures Run(m, a + b) == match Run(m, a) { case None => None case Some(n) => Run(n, b) }
    decreases |a|
  {
    if a == [] {
      assert a + b == b;
    } else {
      assert (a + b)[1..] == a[1..] + b;
      if Step(m, a[0]).Some? {
        StepStack(m, a[0]);
        RunAppend(Step(m, a[0]).value, a[1..], b);
      }
    }
  }

  lemma RunCons(m: Machine, l: Line, b: seq<Line>)
    requires m.stack != []
    ensures Run(m, [l] + b) == match Step(m, l) { case None => None case Some(n) => (StepStack(m, l); Run(n, b)) }
  {
    assert ([l] + b)[1..] == b;
  }

  /** Where the machine is after a script: the stack as before, and the script run if its branch is chosen. */
  function Ran(m: Machine, s: Script): Machine
    requires m.stack != []
  {
    if Top(m.stack) == MATCHES then m.(progress := Exec(s, m.progress)) else m
  }

  /** After a conditional's branches, from inside it: the stack without its state. */
  function RanBranches(m: Machine, b: Branches): Machine
    requires |m.stack| > 1
  {
    Machine(m.stack[..|m.stack| - 1], if Top(m.stack) == UNMATCHED then ExecBranches(b, m.progress) else m.progress)
  }

  lemma {:induction false} MachineRunsScript(s: Script, m: Machine)
    requires WellFormed(s) && m.stack != []
    ensures Run(m, Flatten(s)) == Some(Ran(m, s))
    decreases s, 1
  {
    match s {
      case Done =>
      case Plain(line, rest) =>
        RunCons(m, line, Flatten(rest));
        MachineRunsScript(rest, Step(m, line).value);
      case Cond(name, wanted, body, others, rest) =>
        var inside := Step(m, Line.If(name, wanted)).value;
        RunCons(m, Line.If(name, wanted), Flatten(body) + (FlattenBranches(others) + Flatten(rest)));
        RunAppend(inside, Flatten(body), FlattenBranches(others) + Flatten(rest));
        MachineRunsScript(body, inside);
        var next := Ran(inside, body);
        RunAppend(next, FlattenBranches(others), Flatten(rest));
        MachineRunsBranches(others, next);
        var after := RanBranches(next, others);
        assert after.stack == m.stack;
        MachineRunsScript(rest, after);
    }
  }

  lemma {:induction false} MachineRunsBranches(b: Branches, m: Machine)
    requires WellFormedBranches(b) && |m.stack| > 1
    ensures Run(m, FlattenBranches(b)) == Some(RanBranches(m, b))
    decreases b, 1
  {
    match b {
      case NoMore =>
        RunCons(m, EndIf, []);
      case OrIf(name, wanted, body, others) =>
        BranchRuns(b, m, Elif(name, wanted), Holds(m.progress.env, name, wanted));
      case OrElse(body, others) =>
        BranchRuns(b, m, Else, true);
    }
  }

  lemma BranchRuns(b: Branches, m: Machine, l: Line, holds: bool)
    requires !b.NoMore? && WellFormedBranches(b) && |m.stack| > 1
    requires Step(m, l) == Some(m.(stack := WithTop(m.stack, Matched(Top(m.stack), holds))))
    ensures Run(m, [l] + (Flatten(b.body) + FlattenBranches(b.others)))
         == Some(Machine(m.stack[..|m.stack| - 1],
                         if Top(m.stack) != UNMATCHED then m.progress
                         else if holds then Exec(b.body, m.progress)
                         else ExecBranches(b.others, m.progress)))
    decreases b, 0
  {
    hide Run, Step, Flatten, FlattenBranches, Exec, ExecBranches, Do;
    var inside := Step(m, l).value;
    RunCons(m, l, Flatten(b.body) + FlattenBranches(b.others));
    RunAppend(inside, Flatten(b.body), FlattenBranches(b.others));
    MachineRunsScript(b.body, inside);
    MachineRunsBranches(b.others, Ran(inside, b.body));
  }

  // ----- Which scripts run at all ---------------------------------------------------------------

  /** How deep in conditionals the lines end, if none is closed or continued outside one. */
  function Depth(lines: seq<Line>, d: nat): Option<nat>
    decreases |lines|
  {
    if lines == [] then Some(d)
    else
      match lines[0]
      case If(_, _) => Depth(lines[1..], d + 1)
      case Elif(_, _) => if d == 0 then None else Depth(lines[1..], d)
      case Else => if d == 0 then None else Depth(lines[1..], d)
      case EndIf => if d == 0 then None else Depth(lines[1..], d - 1)
      case _ => Depth(lines[1..], d)
  }

  lemma StepDepth(m: Machine, l: Line)
    requires m.stack != []
    ensures Step(m, l).None? <==> (l.Elif? || l.Else? || l.EndIf?) && |m.stack| == 1
    ensures Step(m, l).Some? ==>
              |Step(m, l).value.stack|
              == (if l.If? then |m.stack| + 1 else if l.EndIf? then |m.stack| - 1 else |m.stack|)
  {
  }

  lemma {:induction false} RunDepth(m: Machine, lines: seq<Line>)
    requires m.stack != []
    ensures Depth(lines, |m.stack| - 1)
         == match Run(m, lines) { case None => None case Some(n) => Some(|n.stack| - 1) }
    decreases |lines|
  {
    hide Step;
    if lines != [] {
      StepDepth(m, lines[0]);
      if Step(m, lines[0]).Some? {
        RunDepth(Step(m, lines[0]).value, lines[1..]);
      }
    }
  }

  /** The script at the front, and the lines from the first that belongs to an enclosing conditional. */
  function ParseScript(lines: seq<Line>): (r: Option<(Script, seq<Line>)>)
    ensures r.Some? ==> |r.value.1| <= |lines|
    decreases |lines|, 0
  {
    if lines == [] || lines[0].Elif? || lines[0].Else? || lines[0].EndIf? then Some((Done, lines))
    else if lines[0].If? then
      match ParseScript(lines[1..])
      case None => None
      case Some(body) =>
        match ParseBranches(body.1)
        case None => None
        case Some(others) =>
          match ParseScript(others.1)
          case None => None
          case Some(rest) => Some((Cond(lines[0].name, lines[0].wanted, body.0, others.0, rest.0), rest.1))
    else
      match ParseScript(lines[1..])
      case None => None
      case Some(rest) => Some((Plain(lines[0], rest.0), rest.1))
  }

  function ParseBranches(lines: seq<Line>): (r: Option<(Branches, seq<Line>)>)
    ensures r.Some? ==> |r.value.1| < |lines|
    decreases |lines|, 1
  {
    if lines == [] then None
    else if lines[0].EndIf? then Some((NoMore, lines[1..]))
    else if lines[0].Elif? || lines[0].Else? then
      match ParseScript(lines[1..])
      case None => None
      case Some(body) =>
        match ParseBranches(body.1)
        case None => None
        case Some(others) =>
          Some((if lines[0].Elif? then OrIf(lines[0].name, lines[0].wanted, body.0, others.0)
                else OrElse(body.0, others.0), others.1))
    else None
  }

  function Parse(lines: seq<Line>): Option<Script> {
    match ParseScript(lines)
    case None => None
    case Some(r) => if r.1 == [] then Some(r.0) else None
  }

  predicate Stops(lines: seq<Line>) {
    lines == [] || lines[0].Elif? || lines[0].Else? || lines[0].EndIf?
  }

  lemma Regroup(a: seq<Line>, b: seq<Line>, c: seq<Line>, d: seq<Line>, e: seq<Line>)
    ensures a + (b + (c + (d + e))) == (a + (b + (c + d))) + e
  {
  }

  lemma FlattenCond(name: string, wanted: bool, body: Script, others: Branches, rest: Script, tail: seq<Line>)
    ensures Flatten(Cond(name, wanted, body, others, rest)) + tail
         == [Line.If(name, wanted)] + (Flatten(body) + (FlattenBranches(others) + (Flatten(rest) + tail)))
  {
    Regroup([Line.If(name, wanted)], Flatten(body), FlattenBranches(others), Flatten(rest), tail);
  }

  lemma FlattenPlain(line: Line, rest: Script, tail: seq<Line>)
    ensures Flatten(Plain(line, rest)) + tail == [line] + (Flatten(rest) + tail)
  {
  }

  lemma FlattenBranch(b: Branches, tail: seq<Line>)
    requires !b.NoMore?
    ensures FlattenBranches(b) + tail
         == [if b.OrIf? then Elif(b.name, b.wanted) else Else] + (Flatten(b.body) + (FlattenBranches(b.others) + tail))
  {
    Regroup([if b.OrIf? then Elif(b.name, b.wanted) else Else], Flatten(b.body), FlattenBranches(b.others), [], tail);
    assert FlattenBranches(b.others) + [] == FlattenBranches(b.others) && [] + tail == tail;
  }

  lemma {:induction false} ParsedIsFlat(lines: seq<Line>)
    ensures var r := ParseScript(lines);
            r.Some? ==> lines == Flatten(r.value.0) + r.value.1 && WellFormed(r.value.0) && Stops(r.value.1)
    decreases |lines|, 0
  {
    hide Flatten, FlattenBranches;
    if Stops(lines) {
      FlattenDone(lines);
    } else if ParseScript(lines).Some? {
      ParsedIsFlat(lines[1..]);
      assert lines == [lines[0]] + lines[1..];
      if lines[0].If? {
        var body := ParseScript(lines[1..]).value;
        ParsedBranchesAreFlat(body.1);
        var others := ParseBranches(body.1).value;
        ParsedIsFlat(others.1);
        var rest := ParseScript(others.1).value;
        FlattenCond(lines[0].name, lines[0].wanted, body.0, others.0, rest.0, rest.1);
      } else {
        var rest := ParseScript(lines[1..]).value;
        FlattenPlain(lines[0], rest.0, rest.1);
      }
    }
  }

  lemma FlattenDone(tail: seq<Line>)
    ensures Flatten(Done) + tail == tail && FlattenBranches(NoMore) == [EndIf]
  {
  }

  lemma {:induction false} ParsedBranchesAreFlat(lines: seq<Line>)
    ensures var r := ParseBranches(lines);
            r.Some? ==> lines == FlattenBranches(r.value.0) + r.value.1 && WellFormedBranches(r.value.0)
    decreases |lines|, 1
  {
    hide Flatten, FlattenBranches;
    if ParseBranches(lines).Some? {
      assert lines == [lines[0]] + lines[1..];
      FlattenDone([]);
      if !lines[0].EndIf? {
        ParsedIsFlat(lines[1..]);
        var body := ParseScript(lines[1..]).value;
        ParsedBranchesAreFlat(body.1);
        FlattenBranch(ParseBranches(lines).value.0, ParseBranches(lines).value.1);
      }
    }
  }

  lemma FirstOf(l: Line, rest: seq<Line>)
    ensures ([l] + rest)[0] == l && ([l] + rest)[1..] == rest
  {
  }

  lemma {:induction false} FlatParses(s: Script, rest: seq<Line>)
    requires WellFormed(s) && Stops(rest)
    ensures ParseScript(Flatten(s) + rest) == Some((s, rest))
    decreases s
  {
    hide Flatten, FlattenBranches;
    match s {
      case Done =>
        FlattenDone(rest);
      case Plain(line, more) =>
        FlatParses(more, rest);
        FlattenPlain(line, more, rest);
        FirstOf(line, Flatten(more) + rest);
      case Cond(name, wanted, body, others, more) =>
        var tail := Flatten(more) + rest;
        var inner := Flatten(body) + (FlattenBranches(others) + tail);
        FlattenCond(name, wanted, body, others, more, rest);
        FirstOf(Line.If(name, wanted), inner);
        BranchesStop(others, tail);
        FlatParses(body, FlattenBranches(others) + tail);
        FlatBranchesParse(others, tail);
        FlatParses(more, rest);
    }
  }

  lemma BranchesStop(b: Branches, tail: seq<Line>)
    ensures Stops(FlattenBranches(b) + tail)
  {
  }

  lemma {:induction false} FlatBranchesParse(b: Branches, tail: seq<Line>)
    requires WellFormedBranches(b)
    ensures ParseBranches(FlattenBranches(b) + tail) == Some((b, tail))
    decreases b
  {
    hide Flatten, FlattenBranches;
    if b.NoMore? {
      FlattenDone([]);
      FirstOf(EndIf, tail);
    } else {
      var inner := Flatten(b.body) + (FlattenBranches(b.others) + tail);
      FlattenBranch(b, tail);
      FirstOf(if b.OrIf? then Elif(b.name, b.wanted) else Else, inner);
      BranchesStop(b.others, tail);
      FlatParses(b.body, FlattenBranches(b.others) + tail);
      FlatBranchesParse(b.others, tail);
    }
  }

  /** Lines the parser cannot close end inside a conditional, or close one that is not open. */
  lemma {:induction false} UnparsedIsUnnested(lines: seq<Line>, d: nat)
    ensures ParseScript(lines).None? ==> Depth(lines, d) != Some(0)
    ensures ParseScript(lines).Some? ==> Depth(lines, d) == Depth(ParseScript(lines).value.1, d)
    decreases |lines|, 0
  {
    hide Flatten, WellFormed;
    if !Stops(lines) {
      if lines[0].If? {
        UnparsedIsUnnested(lines[1..], d + 1);
        if ParseScript(lines[1..]).Some? {
          var body := ParseScript(lines[1..]).value;
          ParsedIsFlat(lines[1..]);
          UnparsedBranches(body.1, d + 1);
          if ParseBranches(body.1).Some? {
            UnparsedIsUnnested(ParseBranches(body.1).value.1, d);
          }
        }
      } else {
        UnparsedIsUnnested(lines[1..], d);
      }
    }
  }

  lemma {:induction false} UnparsedBranches(lines: seq<Line>, d: nat)
    requires d > 0 && Stops(lines)
    ensures ParseBranches(lines).None? ==> Depth(lines, d) != Some(0)
    ensures ParseBranches(lines).Some? ==> Depth(lines, d) == Depth(ParseBranches(lines).value.1, d - 1)
    decreases |lines|, 1
  {
    if lines != [] && !lines[0].EndIf? {
      UnparsedIsUnnested(lines[1..], d);
      if ParseScript(lines[1..]).Some? {
        ParsedIsFlat(lines[1..]);
        UnparsedBranches(ParseScript(lines[1..]).value.1, d);
      }
    }
  }

  /** A script runs exactly when it is a well-nested tree written out, and then it runs that tree:
      in each conditional the first branch whose condition holds when it is reached, and no other. */
  lemma LaunchRunsTree(lines: seq<Line>, env: Env)
    ensures Launched(lines, env)
         == match Parse(lines) { case None => None case Some(s) => Some(Exec(s, Progress(env, []))) }
    ensures Parse(lines).Some? <==> exists s :: WellFormed(s) && Flatten(s) == lines
  {
    var m := Machine([MATCHES], Progress(env, []));
    ParsedIsFlat(lines);
    UnparsedIsUnnested(lines, 0);
    RunDepth(m, lines);
    if Parse(lines).Some? {
      var s := Parse(lines).value;
      assert Flatten(s) + [] == Flatten(s);
      MachineRunsScript(s, m);
    }
    hide Flatten, Run, ParseScript;
    forall s | WellFormed(s) && Flatten(s) == lines
      ensures Parse(lines) == Some(s)
    {
      FlatParses(s, []);
      assert Flatten(s) + [] == Flatten(s);
    }
  }

  // ----- What the lines see ---------------------------------------------------------------------

  function ValueOf(variables: map<string, Value>, name: string): Option<Value> {
    if name in variables then Some(variables[name]) else None
  }

  /** What the last of these lines that sets or unsets the variable leaves of it. */
  function LastSet(executed: seq<(Line, Env)>, global: bool, name: string, start: Option<Value>): Option<Value> {
    if executed == [] then start
    else
      var before := executed[..|executed| - 1];
      match executed[|executed| - 1].0
      case Set(g, n, value) => if g == global && n == name then Some(value) else LastSet(before, global, name, start)
      case Unset(g, n) => if g == global && n == name then None else LastSet(before, global, name, start)
      case _ => LastSet(before, global, name, start)
  }

  predicate SeesLastSet(env: Env, executed: seq<(Line, Env)>, seen: Env, name: string) {
    && ValueOf(seen.variables, name) == LastSet(executed, false, name, ValueOf(env.variables, name))
    && ValueOf(seen.gvariables, name) == LastSet(executed, true, name, ValueOf(env.gvariables, name))
  }

  /** Each line so far, and the next one, sees the variables as the lines before it left them. */
  ghost predicate AllSee(env: Env, p: Progress, name: string) {
    && SeesLastSet(env, p.executed, p.env, name)
    && forall k :: 0 <= k < |p.executed| ==> SeesLastSet(env, p.executed[..k], p.executed[k].1, name)
  }

  lemma DoSees(env: Env, p: Progress, l: Line, name: string)
    requires AllSee(env, p, name)
    ensures AllSee(env, Do(p, l), name)
  {
    var q := Do(p, l);
    assert q.executed[..|p.executed|] == p.executed;
    hide ValueOf;
    LineSees(env, p, l, name);
    hide SeesLastSet;
    forall k | 0 <= k < |q.executed|
      ensures SeesLastSet(env, q.executed[..k], q.executed[k].1, name)
    {
      if k < |p.executed| {
        assert q.executed[..k] == p.executed[..k];
      }
    }
  }

  lemma LineSees(env: Env, p: Progress, l: Line, name: string)
    requires SeesLastSet(env, p.executed, p.env, name)
    ensures SeesLastSet(env, p.executed + [(l, p.env)], After(p.env, l), name)
  {
    assert (p.executed + [(l, p.env)])[..|p.executed|] == p.executed;
  }

  lemma {:induction false} RunSees(env: Env, m: Machine, lines: seq<Line>, name: string)
    requires m.stack != [] && AllSee(env, m.progress, name) && Run(m, lines).Some?
    ensures AllSee(env, Run(m, lines).value.progress, name)
    decreases |lines|
  {
    hide AllSee, Do;
    if lines != [] {
      DoSees(env, m.progress, lines[0], name);
      StepStack(m, lines[0]);
      RunSees(env, Step(m, lines[0]).value, lines[1..], name);
    }
  }

  /** Every executed line sees each variable as the last executed line before it that sets or unsets it left
      it, script variables and globals apart, and so do the variables at the end. */
  lemma LinesSeeLastSet(lines: seq<Line>, env: Env, k: nat, name: string)
    requires Launched(lines, env).Some? && k <= |Launched(lines, env).value.executed|
    ensures var p := Launched(lines, env).value;
            var seen := if k < |p.executed| then p.executed[k].1 else p.env;
            SeesLastSet(env, p.executed[..k], seen, name)
  {
    var m := Machine([MATCHES], Progress(env, []));
    RunSees(env, m, lines, name);
    var p := Launched(lines, env).value;
    assert p.executed[..|p.executed|] == p.executed;
    hide SeesLastSet, Run;
  }

  /** A conditional runs its body if it asks for a variable that is set, or for one not set that is not, be it a
      script variable or a global; otherwise what follows decides. */
  lemma ConditionDecides(name: string, wanted: bool, body: Script, others: Branches, rest: Script, p: Progress)
    ensures var isSet := ValueOf(p.env.variables, name).Some? || ValueOf(p.env.gvariables, name).Some?;
            var after := Exec(Cond(name, wanted, body, others, rest), p);
            && (isSet == wanted ==> after == Exec(rest, Exec(body, p)))
            && (isSet != wanted && others.NoMore? ==> after == Exec(rest, p))
            && (isSet != wanted && others.OrElse? ==> after == Exec(rest, Exec(others.body, p)))
            && (isSet != wanted && others.OrIf? ==>
                  after == Exec(Cond(others.name, others.wanted, others.body, others.others, rest), p))
  {
  }

  // ----- The launcher ---------------------------------------------------------------------------

  lemma RunNothing(m: Machine)
    requires m.stack != []
    ensures Run(m, []) == Some(m)
  {
  }

  lemma RunOne(m: Machine, l: Line)
    requires m.stack != []
    ensures Run(m, [l]) == Step(m, l)
  {
    assert [l][1..] == [];
  }

  lemma RunNext(start: Machine, lines: seq<Line>, n: nat, m: Machine)
    requires start.stack != [] && n < |lines| && Run(start, lines[..n]) == Some(m)
    ensures Run(start, lines[..n + 1]) == Step(m, lines[n])
    ensures Step(m, lines[n]).None? ==> Run(start, lines).None?
  {
    hide Step, Run;
    assert lines[..n + 1] == lines[..n] + [lines[n]];
    RunAppend(start, lines[..n], [lines[n]]);
    RunOne(m, lines[n]);
    assert lines == lines[..n + 1] + lines[n + 1..];
    RunAppend(start, lines[..n + 1], lines[n + 1..]);
  }

  class IfStack {
    var stack: Stack

    constructor ()
      ensures stack == [MATCHES]
    {
      stack := [MATCHES];
    }

    predicate CanExecute()
      requires stack != []
      reads this
    {
      Top(stack) == MATCHES
    }

    method PushIf()
      requires stack != []
      modifies this
      ensures stack == StartIf(old(stack))
    {
      if CanExecute() {
        stack := stack + [UNMATCHED];
      } else {
        stack := stack + [DONE_MATCHING];
      }
    }

    /** False for a conditional line outside any conditional. */
    method Match(matches: bool) returns (ok: bool)
      requires stack != []
      modifies this
      ensures ok == SetMatch(old(stack), matches).Some?
      ensures stack == if ok then SetMatch(old(stack), matches).value else old(stack)
    {
      if |stack| == 1 {
        return false;
      }
      var state := stack[|stack| - 1];
      assert stack == WithTop(stack, state);
      if state == DONE_MATCHING {
        return true;
      } else if state == MATCHES {
        stack := stack[|stack| - 1 := state + 1];
      } else if state == UNMATCHED {
        if matches {
          stack := stack[|stack| - 1 := state + 1];
        }
      }
      return true;
    }

    method PopIf() returns (ok: bool)
      requires stack != []
      modifies this
      ensures ok == EndOfIf(old(stack)).Some?
      ensures stack == old(stack)[..|old(stack)| - 1]
    {
      stack := stack[..|stack| - 1];
      return stack != [];
    }

    method Finish() returns (ok: bool)
      requires stack != []
      ensures ok == (|stack| == 1)
    {
      return |stack| == 1;
    }
  }

  class Launcher {
    var variables: map<string, Value>
    var gvariables: map<string, Value>

    function Variables(): Env
      reads this
    {
      Env(variables, gvariables)
    }

    method HandleSet(global: bool, name: string, value: Value)
      modifies this
      ensures Variables() == After(old(Variables()), Set(global, name, value))
    {
      if global {
        gvariables := gvariables[name := value];
      } else {
        variables := variables[name := value];
      }
    }

    method HandleUnset(global: bool, name: string)
      modifies this
      ensures Variables() == After(old(Variables()), Unset(global, name))
    {
      if global {
        gvariables := gvariables - {name};
      } else {
        variables := variables - {name};
      }
    }

    /** None if the launcher gives up on the script; otherwise the lines it executed. */
    method Launch(lines: seq<Line>) returns (executed: Option<seq<(Line, Env)>>)
      modifies this
      ensures var p := Launched(lines, old(Variables()));
              && (executed.Some? <==> p.Some?)
              && (p.Some? ==> executed.value == p.value.executed
                              && variables == map[] && gvariables == p.value.env.gvariables)
    {
      hide Run, Matched, WithTop, Top;
      ghost var start := Machine([MATCHES], Progress(Variables(), []));
      var done: seq<(Line, Env)> := [];
      var ifStack := new IfStack();
      var n := 0;
      RunNothing(start);
      assert lines[..0] == [];
      while n < |lines|
        invariant n <= |lines| && ifStack.stack != [] && fresh(ifStack)
        invariant Run(start, lines[..n]) == Some(Machine(ifStack.stack, Progress(Variables(), done)))
      {
        var line := lines[n];
        ghost var m := Machine(ifStack.stack, Progress(Variables(), done));
        RunNext(start, lines, n, m);
        n := n + 1;
        var ok := true;
        if line.If? {
          ifStack.PushIf();
          ok := ifStack.Match(Variables().Defines(line.name) == line.wanted);
        } else if line.Elif? {
          ok := ifStack.Match(Variables().Defines(line.name) == line.wanted);
        } else if line.Else? {
          ok := ifStack.Match(true);
        } else if line.EndIf? {
          ok := ifStack.PopIf();
        } else if ifStack.CanExecute() {
          done := done + [(line, Variables())];
          if line.Set? {
            HandleSet(line.global, line.name, line.value);
          } else if line.Unset? {
            HandleUnset(line.global, line.name);
          }
        }
        assert Step(m, line) == if ok then Some(Machine(ifStack.stack, Progress(Variables(), done))) else None;
        if !ok {
          return None;
        }
      }
      assert lines[..n] == lines;
      var ok := ifStack.Finish();
      if !ok {
        return None;
      }
      variables := map[];
      return Some(done);
    }
  }
}
