/** The arguments of script aliases, engine/command.cpp: identifiers `arg1` to `arg25`, shared by all calls. */
module AliasArguments {

  const MAXARGS := 25

  datatype Value = Null | Number(n: int) | Text(t: string)

  /** An argument identifier: its value, and the values it had in the calls around, innermost first. */
  datatype Ident = Ident(value: Value, stack: seq<Value>) {
    /** `pusharg`. */
    function Push(v: Value): Ident {
      Ident(v, [value] + stack)
    }

    /** `poparg`. */
    function Pop(): Ident {
      if stack == [] then this else Ident(stack[0], stack[1..])
    }
  }

  /** What a script does to arguments: assign one, refer to one by name, or call an alias. */
  datatype Action = Assign(i: nat, v: Value) | Refer(k: nat) | Call(values: seq<Value>, body: seq<Action>)

  /** The bits below `n`. */
  function Upto(n: nat): (s: set<nat>)
    ensures forall i: nat :: i in s <==> i < n
  {
    if n == 0 then {} else Upto(n - 1) + {n - 1}
  }

  /** The identifiers, and for each call in progress, innermost last, which of them it has pushed
      (`usedargs`, a set of bits). Outside all calls every bit is set. */
  datatype State = State(args: seq<Ident>, links: seq<set<nat>>) {
    predicate Shaped() {
      |args| == MAXARGS && forall k | 0 <= k < |links| :: forall i | i in links[k] :: i < MAXARGS
    }

    /** The bits of the innermost call. */
    function Used(): set<nat> {
      if links == [] then Upto(MAXARGS) else links[|links| - 1]
    }

    function Mark(i: nat): State {
      if links == [] then this else this.(links := links[|links| - 1 := links[|links| - 1] + {i}])
    }

    /** `setarg`. */
    function SetArg(i: nat, v: Value): State
      requires i < |args|
    {
      if i in Used() then this.(args := args[i := args[i].(value := v)])
      else this.(args := args[i := args[i].Push(v)]).Mark(i)
    }

    /** `CODE_IDENTARG`: an argument is referred to, and so becomes the call's own. */
    function Touch(i: nat): State
      requires i < |args|
    {
      if i in Used() then this else this.(args := args[i := args[i].Push(Null)]).Mark(i)
    }

    /** `CODE_LOOKUPARG`: what a script gets for an argument, nothing if the call does not own it. */
    function Lookup(i: nat): Value
      requires i < |args|
    {
      if i in Used() then args[i].value else Null
    }

    /** `CALLALIAS`, before the body: push the arguments given. */
    function Enter(values: seq<Value>): State
      requires |values| <= |args|
    {
      State(seq(|args|, i requires 0 <= i < |args| => if i < |values| then args[i].Push(values[i]) else args[i]),
            links + [Upto(|values|)])
    }

    /** And after it: pop those, and whatever else the call has pushed. */
    function Leave(n: nat): State
      requires links != []
    {
      State(seq(|args|, i requires 0 <= i < |args| => if i < n || i in links[|links| - 1] then args[i].Pop() else args[i]),
            links[..|links| - 1])
    }
  }

  /** The actions name arguments that exist, and calls give at most as many as there are. */
  predicate Proper(a: Action)
    decreases a, 0
  {
    match a
    case Assign(i, _) => i < MAXARGS
    case Refer(i) => i < MAXARGS
    case Call(values, body) => |values| <= MAXARGS && AllProper(body)
  }

  predicate AllProper(body: seq<Action>)
    decreases body
  {
    forall k | 0 <= k < |body| :: Proper(body[k])
  }

  function Do(s: State, a: Action): State
    requires s.Shaped() && Proper(a)
    ensures Do(s, a).Shaped() && |Do(s, a).links| == |s.links|
    decreases a, 0
  {
    match a
    case Assign(i, v) => s.SetArg(i, v)
    case Refer(i) => s.Touch(i)
    case Call(values, body) => Exec(s.Enter(values), body).Leave(|values|)
  }

  function Exec(s: State, body: seq<Action>): State
    requires s.Shaped() && AllProper(body)
    ensures Exec(s, body).Shaped() && |Exec(s, body).links| == |s.links|
    decreases body, |body| + 1
  {
    ExecFrom(s, body, |body|)
  }

  function ExecFrom(s: State, body: seq<Action>, n: nat): State
    requires s.Shaped() && AllProper(body) && n <= |body|
    ensures ExecFrom(s, body, n).Shaped() && |ExecFrom(s, body, n).links| == |s.links|
    decreases body, n
  {
    if n == 0 then s else Do(ExecFrom(s, body, n - 1), body[n - 1])
  }

  // ---------- What a call may touch ----------

  /** Within one call: arguments it had pushed before keep what is under them, those it pushes now keep the old
      value under them, and the others are untouched; so are the calls around it. */
  ghost predicate Within(s: State, s': State)
    requires s.Shaped() && s'.Shaped()
  {
    && |s'.links| == |s.links|
    && (s.links != [] ==> s'.links[..|s.links| - 1] == s.links[..|s.links| - 1])
    && s.Used() <= s'.Used()
    && forall i | 0 <= i < MAXARGS ::
         if i in s.Used() then s'.args[i].stack == s.args[i].stack
         else if i in s'.Used() then s'.args[i].stack == [s.args[i].value] + s.args[i].stack
         else s'.args[i] == s.args[i]
  }

  lemma {:induction false} WithinTwice(a: State, b: State, c: State)
    requires a.Shaped() && b.Shaped() && c.Shaped() && Within(a, b) && Within(b, c)
    ensures Within(a, c)
  {
  }

  lemma {:induction false} SetArgWithin(s: State, i: nat, v: Value)
    requires s.Shaped() && i < MAXARGS
    ensures s.SetArg(i, v).Shaped() && Within(s, s.SetArg(i, v))
  {
  }

  lemma {:induction false} TouchWithin(s: State, i: nat)
    requires s.Shaped() && i < MAXARGS
    ensures s.Touch(i).Shaped() && Within(s, s.Touch(i))
  {
  }

  /** Whatever stays within the call it entered is undone on leaving. */
  lemma {:induction false} LeaveRestores(s: State, values: seq<Value>, t: State)
    requires s.Shaped() && |values| <= MAXARGS && s.Enter(values).Shaped() && t.Shaped() && Within(s.Enter(values), t)
    ensures t.links != [] && t.Leave(|values|) == s
  {
    var e, r := s.Enter(values), t.Leave(|values|);
    assert e.Used() == Upto(|values|);
    forall i | 0 <= i < MAXARGS ensures r.args[i] == s.args[i] {
      if i < |values| {
        assert i in e.Used();
        assert t.args[i].stack == [s.args[i].value] + s.args[i].stack;
      }
    }
    assert e.links[..|e.links| - 1] == s.links;
  }

  /** After any script, with any depth of calls in it, an alias call leaves every argument identifier exactly
      as it was: value, stack and marks. */
  lemma {:induction false} CallRestores(s: State, values: seq<Value>, body: seq<Action>)
    requires s.Shaped() && |values| <= MAXARGS && AllProper(body)
    ensures Do(s, Call(values, body)) == s
    decreases body, |body| + 1
  {
    ExecWithin(s.Enter(values), body, |body|);
    LeaveRestores(s, values, Exec(s.Enter(values), body));
  }

  lemma {:induction false} ExecWithin(s: State, body: seq<Action>, n: nat)
    requires s.Shaped() && AllProper(body) && n <= |body|
    ensures Within(s, ExecFrom(s, body, n))
    decreases body, n
  {
    if n > 0 {
      var t := ExecFrom(s, body, n - 1);
      ExecWithin(s, body, n - 1);
      match body[n - 1] {
        case Assign(i, v) => SetArgWithin(t, i, v);
        case Refer(i) => TouchWithin(t, i);
        case Call(values, inner) => CallRestores(t, values, inner);
      }
      assert Within(t, ExecFrom(s, body, n)) by {
        assert ExecFrom(s, body, n) == Do(t, body[n - 1]);
      }
      WithinTwice(s, t, ExecFrom(s, body, n));
    }
  }

  // ---------- What an argument is worth ----------

  /** What was last assigned to argument `i` by the first `n` actions of a script; `before`, if nothing was. */
  ghost function Assigned(body: seq<Action>, n: nat, i: nat, before: Value): Value
    requires n <= |body|
  {
    if n == 0 then before
    else if body[n - 1].Assign? && body[n - 1].i == i then body[n - 1].v
    else Assigned(body, n - 1, i, before)
  }

  /** One of those actions assigned it or referred to it. */
  ghost predicate Mentioned(body: seq<Action>, n: nat, i: nat)
    requires n <= |body|
  {
    exists k | 0 <= k < n :: (body[k].Assign? && body[k].i == i) || (body[k].Refer? && body[k].k == i)
  }

  /** In the middle of any script an argument is worth what the script itself last assigned to it, whatever was called. */
  lemma {:induction false} WorthThroughout(s: State, body: seq<Action>, n: nat, i: nat)
    requires s.Shaped() && AllProper(body) && n <= |body| && i < MAXARGS
    ensures var t := ExecFrom(s, body, n);
            && (i in t.Used() <==> i in s.Used() || Mentioned(body, n, i))
            && t.Lookup(i) == Assigned(body, n, i, s.Lookup(i))
  {
    if n > 0 {
      WorthThroughout(s, body, n - 1, i);
      var t := ExecFrom(s, body, n - 1);
      MentionedStep(body, n, i);
      match body[n - 1] {
        case Assign(j, v) => SetArgWorth(t, j, v, i);
        case Refer(j) => TouchWorth(t, j, i);
        case Call(values, inner) => CallRestores(t, values, inner);
      }
    }
  }

  lemma {:induction false} MentionedStep(body: seq<Action>, n: nat, i: nat)
    requires 0 < n <= |body|
    ensures var a := body[n - 1];
            Mentioned(body, n, i) <==> Mentioned(body, n - 1, i) || (a.Assign? && a.i == i) || (a.Refer? && a.k == i)
  {
  }

  lemma {:induction false} SetArgWorth(s: State, j: nat, v: Value, i: nat)
    requires s.Shaped() && i < MAXARGS && j < MAXARGS
    ensures s.SetArg(j, v).Lookup(i) == if i == j then v else s.Lookup(i)
    ensures i in s.SetArg(j, v).Used() <==> i in s.Used() || i == j
  {
  }

  lemma {:induction false} TouchWorth(s: State, j: nat, i: nat)
    requires s.Shaped() && i < MAXARGS && j < MAXARGS
    ensures s.Touch(j).Lookup(i) == s.Lookup(i)
    ensures i in s.Touch(j).Used() <==> i in s.Used() || i == j
  {
  }

  /** In the middle of a call an argument is worth what the alias last assigned to it, or else what was given for it, or
      else nothing; and the call owns it if it was given, assigned or referred to. */
  lemma {:induction false} WorthInCall(s: State, values: seq<Value>, body: seq<Action>, n: nat, i: nat)
    requires s.Shaped() && |values| <= MAXARGS && AllProper(body) && n <= |body| && i < MAXARGS
    ensures var t := ExecFrom(s.Enter(values), body, n);
            && t.Lookup(i) == Assigned(body, n, i, if i < |values| then values[i] else Null)
            && (i in t.Used() <==> i < |values| || Mentioned(body, n, i))
            && (i !in t.Used() ==> t.args[i] == s.args[i])
  {
    var e := s.Enter(values);
    assert e.Used() == Upto(|values|);
    WorthThroughout(e, body, n, i);
    ExecWithin(e, body, n);
  }

  // ---------- How deep the stacks are ----------

  function Depth(links: seq<set<nat>>, i: nat): nat {
    if links == [] then 0 else Depth(links[..|links| - 1], i) + if i in links[|links| - 1] then 1 else 0
  }

  /** An argument is as deep as there are calls in progress that have pushed it. */
  ghost predicate DepthsTrue(s: State)
    requires s.Shaped()
  {
    forall i | 0 <= i < MAXARGS :: |s.args[i].stack| == Depth(s.links, i)
  }

  lemma {:induction false} WithinDepths(s: State, t: State)
    requires s.Shaped() && t.Shaped() && Within(s, t) && DepthsTrue(s)
    ensures DepthsTrue(t)
  {
    forall i | 0 <= i < MAXARGS ensures |t.args[i].stack| == Depth(t.links, i) {
    }
  }

  lemma {:induction false} EnterDepths(s: State, values: seq<Value>)
    requires s.Shaped() && |values| <= MAXARGS && DepthsTrue(s)
    ensures s.Enter(values).Shaped() && DepthsTrue(s.Enter(values))
  {
    var e := s.Enter(values);
    assert e.links[..|e.links| - 1] == s.links;
  }

  /** In the middle of any script, as of any call, the depths are true. */
  lemma {:induction false} DepthsThroughout(s: State, body: seq<Action>, n: nat)
    requires s.Shaped() && AllProper(body) && n <= |body| && DepthsTrue(s)
    ensures DepthsTrue(ExecFrom(s, body, n))
  {
    ExecWithin(s, body, n);
    WithinDepths(s, ExecFrom(s, body, n));
  }

  // ---------- The interpreter ----------

  class Interpreter {
    const idents: array<Ident>
    var links: seq<set<nat>>

    constructor ()
      ensures Valid() && fresh(idents) && DepthsTrue(View())
    {
      idents := new Ident[MAXARGS](_ => Ident(Null, []));
      links := [];
    }

    ghost function View(): State
      reads this, idents
    {
      State(idents[..], links)
    }

    ghost predicate Valid()
      reads this, idents
    {
      View().Shaped()
    }

    /** `aliasstack->usedargs&(1<<i)`, where the link outside all calls has every bit. */
    predicate Uses(i: nat)
      requires i < MAXARGS
      reads this
      ensures Uses(i) == (i in State([], links).Used())
    {
      links == [] || i in links[|links| - 1]
    }

    method Lookup(i: nat) returns (v: Value)
      requires Valid() && i < MAXARGS
      ensures v == View().Lookup(i)
    {
      if !Uses(i) {
        return Null;
      }
      v := idents[i].value;
    }

    method PushArg(i: nat, v: Value)
      requires Valid() && i < MAXARGS
      modifies idents
      ensures Valid() && idents[..] == old(idents[..])[i := old(idents[i]).Push(v)]
    {
      idents[i] := Ident(v, [idents[i].value] + idents[i].stack);
    }

    method PopArg(i: nat)
      requires Valid() && i < MAXARGS
      modifies idents
      ensures Valid() && idents[..] == old(idents[..])[i := old(idents[i]).Pop()]
    {
      if idents[i].stack == [] { return; }
      var stack := idents[i].stack;
      idents[i] := Ident(stack[0], stack[1..]);
    }

    method MarkUsed(i: nat)
      requires Valid() && i < MAXARGS && !Uses(i)
      modifies `links
      ensures Valid() && View() == old(View()).Mark(i)
    {
      var last := |links| - 1;
      links := links[last := links[last] + {i}];
    }

    method SetArg(i: nat, v: Value)
      requires Valid() && i < MAXARGS
      modifies this, idents
      ensures Valid() && View() == old(View()).SetArg(i, v)
    {
      if Uses(i) {
        idents[i] := Ident(v, idents[i].stack);
      } else {
        PushArg(i, v);
        MarkUsed(i);
      }
    }

    method Touch(i: nat)
      requires Valid() && i < MAXARGS
      modifies this, idents
      ensures Valid() && View() == old(View()).Touch(i)
    {
      if !Uses(i) {
        PushArg(i, Null);
        MarkUsed(i);
      }
    }

    method Enter(values: seq<Value>)
      requires Valid() && |values| <= MAXARGS
      modifies this, idents
      ensures Valid() && View() == old(View()).Enter(values)
    {
      var i: nat := 0;
      while i < |values|
        invariant i <= |values|
        invariant links == old(links)
        invariant forall k | 0 <= k < MAXARGS ::
          idents[k] == if k < i then old(idents[k]).Push(values[k]) else old(idents[k])
      {
        PushArg(i, values[i]);
        i := i + 1;
      }
      links := links + [Upto(|values|)];
    }

    /** First the arguments given, then, by the bits, whatever the call pushed besides. */
    method Leave(n: nat)
      requires Valid() && links != [] && n <= MAXARGS
      modifies this, idents
      ensures Valid() && View() == old(View()).Leave(n)
    {
      var used := links[|links| - 1];
      links := links[..|links| - 1];
      var i: nat := 0;
      while i < n
        invariant i <= n
        invariant Valid() && links == old(links)[..|old(links)| - 1]
        invariant forall k | 0 <= k < MAXARGS ::
          idents[k] == if k < i then old(idents[k]).Pop() else old(idents[k])
      {
        PopArg(i);
        i := i + 1;
      }
      var argmask := used - Upto(n);
      while argmask != {}
        invariant n <= i && forall k: nat :: k in argmask <==> i <= k && k in used
        invariant Valid() && links == old(links)[..|old(links)| - 1]
        invariant forall k | 0 <= k < MAXARGS ::
          idents[k] == if k < n || (k < i && k in used) then old(idents[k]).Pop() else old(idents[k])
        decreases MAXARGS - i
      {
        assert i < MAXARGS by {
          var k :| k in argmask;
        }
        if i in argmask {
          PopArg(i);
          argmask := argmask - {i};
        }
        i := i + 1;
      }
    }

    /** `CALLALIAS`: it leaves the arguments as it found them. */
    method CallAlias(values: seq<Value>, body: seq<Action>)
      requires Valid() && |values| <= MAXARGS && AllProper(body)
      modifies this, idents
      ensures Valid() && View() == old(View())
      decreases body, |body| + 2
    {
      ghost var s := View();
      CallRestores(s, values, body);
      Enter(values);
      Execute(body);
      Leave(|values|);
    }

    method Execute(body: seq<Action>)
      requires Valid() && AllProper(body)
      modifies this, idents
      ensures Valid() && View() == Exec(old(View()), body)
      decreases body, |body| + 1
    {
      ghost var s := View();
      var n: nat := 0;
      while n < |body|
        invariant n <= |body|
        invariant Valid() && View() == ExecFrom(s, body, n)
      {
        match body[n] {
          case Assign(i, v) => SetArg(i, v);
          case Refer(i) => Touch(i);
          case Call(values, inner) =>
            CallRestores(View(), values, inner);
            CallAlias(values, inner);
        }
        n := n + 1;
      }
    }
  }
}
