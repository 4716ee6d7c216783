/** The shell's variables: a stack of scopes and four policies for looking names up in it
    (brush-core/src/env.rs). */
module Environment {
  import opened Wrappers

  datatype Scope = Local | Global | Command

  datatype Policy = Anywhere | OnlyInGlobal | OnlyInCurrentLocal | OnlyInLocal

  /** An indexed array is sparse. */
  datatype Value = Unset | Str(s: string) | Indexed(elements: map<nat, string>)

  datatype Variable = Variable(value: Value, exported: bool, readonly: bool)

  datatype Frame = Frame(scope: Scope, vars: map<string, Variable>)

  /** The top of the stack is the last frame. */
  type Stack = seq<Frame>

  datatype Error = ReadonlyVariable | MissingScopeForNewVariable | UnexpectedScopeType | MissingScope

  // ----- Looking up -----------------------------------------------------------------------------

  /** Whether a policy looks into a frame; `locals` counts the local frames from the top down
      to it, itself included. */
  predicate Admits(policy: Policy, scope: Scope, locals: nat) {
    match policy
    case Anywhere => true
    case OnlyInGlobal => scope.Global?
    case OnlyInCurrentLocal => scope.Local? && locals == 1
    case OnlyInLocal => scope.Local?
  }

  function CountLocal(scope: Scope, locals: nat): nat {
    if scope.Local? then locals + 1 else locals
  }

  /** The frame that a name is found in, when the search has come down to the lowest `n` frames
      and passed `locals` local ones. */
  function Find(stack: Stack, name: string, policy: Policy, n: nat, locals: nat): (r: Option<nat>)
    requires n <= |stack|
    ensures r.Some? ==> r.value < n && name in stack[r.value].vars
  {
    if n == 0 then None
    else
      var f := stack[n - 1];
      var count := CountLocal(f.scope, locals);
      if Admits(policy, f.scope, count) && name in f.vars then Some(n - 1)
      else if Admits(policy, f.scope, count) && f.scope.Local? && policy.OnlyInCurrentLocal? then None
      else Find(stack, name, policy, n - 1, count)
  }

  function Lookup(stack: Stack, name: string, policy: Policy): (r: Option<nat>)
    ensures r.Some? ==> r.value < |stack| && name in stack[r.value].vars
  {
    Find(stack, name, policy, |stack|, 0)
  }

  function Read(stack: Stack, name: string, policy: Policy): Option<Variable> {
    match Lookup(stack, name, policy)
    case None => None
    case Some(i) => Some(stack[i].vars[name])
  }

  /** Every name that a policy shows, built from the bottom up: a frame hides those below. */
  function Visible(stack: Stack, policy: Policy, n: nat, locals: nat): map<string, Variable>
    requires n <= |stack|
  {
    if n == 0 then map[]
    else
      var f := stack[n - 1];
      var count := CountLocal(f.scope, locals);
      if !Admits(policy, f.scope, count) then Visible(stack, policy, n - 1, count)
      else if f.scope.Local? && policy.OnlyInCurrentLocal? then f.vars
      else Visible(stack, policy, n - 1, count) + f.vars
  }

  /** The map of all visible variables and the search for one agree on every name. */
  lemma {:induction false} VisibleIsFound(stack: Stack, name: string, policy: Policy, n: nat, locals: nat)
    requires n <= |stack|
    ensures var shown := Visible(stack, policy, n, locals);
            match Find(stack, name, policy, n, locals)
            case None => name !in shown
            case Some(i) => name in shown && shown[name] == stack[i].vars[name]
  {
    if n > 0 {
      VisibleIsFound(stack, name, policy, n - 1, CountLocal(stack[n - 1].scope, locals));
    }
  }

  predicate Holds(stack: Stack, name: string, scope: Option<Scope>, i: nat)
    requires i < |stack|
  {
    (scope.None? || stack[i].scope == scope.value) && name in stack[i].vars
  }

  /** Of the lowest `n` frames, the topmost one that has the name, of all or of a kind. */
  ghost predicate IsTopmost(stack: Stack, name: string, scope: Option<Scope>, n: nat, r: Option<nat>)
    requires n <= |stack|
  {
    match r
    case None => forall i: nat | i < n :: !Holds(stack, name, scope, i)
    case Some(i) => i < n && Holds(stack, name, scope, i) && forall j: nat | i < j < n :: !Holds(stack, name, scope, j)
  }

  /** The topmost local frame. */
  predicate IsCurrent(stack: Stack, n: nat, i: nat)
    requires n <= |stack|
  {
    i < n && stack[i].scope.Local? && forall j :: i < j < n ==> !stack[j].scope.Local?
  }

  ghost predicate IsFound(stack: Stack, name: string, policy: Policy, n: nat, r: Option<nat>)
    requires n <= |stack|
  {
    match policy
    case Anywhere => IsTopmost(stack, name, None, n, r)
    case OnlyInGlobal => IsTopmost(stack, name, Some(Global), n, r)
    case OnlyInLocal => IsTopmost(stack, name, Some(Local), n, r)
    case OnlyInCurrentLocal =>
      if r.Some? then IsCurrent(stack, n, r.value) && name in stack[r.value].vars
      else forall i: nat | IsCurrent(stack, n, i) :: name !in stack[i].vars
  }

  lemma {:induction false} FindIs(stack: Stack, name: string, policy: Policy, n: nat, locals: nat)
    requires n <= |stack| && (policy.OnlyInCurrentLocal? ==> locals == 0)
    ensures IsFound(stack, name, policy, n, Find(stack, name, policy, n, locals))
  {
    if n > 0 {
      if !(policy.OnlyInCurrentLocal? && stack[n - 1].scope.Local?) {
        FindIs(stack, name, policy, n - 1, CountLocal(stack[n - 1].scope, locals));
      }
      assert forall i: nat | IsCurrent(stack, n, i) :: if stack[n - 1].scope.Local? then i == n - 1 else IsCurrent(stack, n - 1, i);
    }
  }

  /** Every policy finds the topmost variable of the name in the scopes that it is for; the one for the current
      function looks into the topmost local scope only. */
  lemma LookupIs(stack: Stack, name: string, policy: Policy)
    ensures IsFound(stack, name, policy, |stack|, Lookup(stack, name, policy))
  {
    FindIs(stack, name, policy, |stack|, 0);
  }

  // ----- Changing -------------------------------------------------------------------------------

  function SetIn(stack: Stack, i: nat, name: string, v: Variable): (r: Stack)
    requires i < |stack|
    ensures |r| == |stack|
  {
    stack[i := stack[i].(vars := stack[i].vars[name := v])]
  }

  function RemoveFrom(stack: Stack, i: nat, name: string): (r: Stack)
    requires i < |stack|
    ensures |r| == |stack|
  {
    stack[i := stack[i].(vars := stack[i].vars - {name})]
  }

  /** The topmost frame of a kind. */
  function Topmost(stack: Stack, scope: Scope): (r: Option<nat>)
    ensures r.Some? ==> r.value < |stack| && stack[r.value].scope == scope
    ensures r.Some? ==> forall j :: r.value < j < |stack| ==> stack[j].scope != scope
    ensures r.None? ==> forall j :: 0 <= j < |stack| ==> stack[j].scope != scope
  {
    if stack == [] then None
    else if stack[|stack| - 1].scope == scope then Some(|stack| - 1)
    else Topmost(stack[..|stack| - 1], scope)
  }

  lemma TopmostIs(stack: Stack, scope: Scope, i: nat)
    requires i < |stack| && stack[i].scope == scope
    requires forall j :: i < j < |stack| ==> stack[j].scope != scope
    ensures Topmost(stack, scope) == Some(i)
  {
  }

  /** The text of a variable that is read without a subscript. */
  function Scalar(v: Value): Option<string> {
    match v
    case Unset => None
    case Str(s) => Some(s)
    case Indexed(elements) => if 0 in elements then Some(elements[0]) else None
  }

  /** Assigning text to an array sets its element 0; the attributes stay. */
  function Assigned(v: Variable, s: string, autoExport: bool): (r: Variable)
    ensures Scalar(r.value) == Some(s)
  {
    v.(value := if v.value.Indexed? then Indexed(v.value.elements[0 := s]) else Str(s),
       exported := v.exported || autoExport)
  }

  const FRESH := Variable(Unset, false, false)

  function Added(stack: Stack, name: string, v: Variable, target: Scope, autoExport: bool): Result<Stack, Error> {
    match Topmost(stack, target)
    case None => Err(MissingScopeForNewVariable)
    case Some(i) => Ok(SetIn(stack, i, name, v.(exported := v.exported || autoExport)))
  }

  function Updated(stack: Stack, name: string, s: string, policy: Policy, target: Scope, autoExport: bool)
    : Result<Stack, Error>
  {
    match Lookup(stack, name, policy)
    case Some(i) =>
      if stack[i].vars[name].readonly then Err(ReadonlyVariable)
      else Ok(SetIn(stack, i, name, Assigned(stack[i].vars[name], s, autoExport)))
    case None => Added(stack, name, Assigned(FRESH, s, autoExport), target, autoExport)
  }

  /** The number of local frames from frame `i` up, frame `i` included. */
  function LocalsFrom(stack: Stack, i: nat): nat
    requires i <= |stack|
    decreases |stack| - i
  {
    if i == |stack| then 0 else CountLocal(stack[i].scope, LocalsFrom(stack, i + 1))
  }

  lemma {:induction false} NoLocalsFrom(stack: Stack, i: nat)
    requires i <= |stack|
    ensures LocalsFrom(stack, i) == 0 <==> forall j :: i <= j < |stack| ==> !stack[j].scope.Local?
    decreases |stack| - i
  {
    if i < |stack| {
      NoLocalsFrom(stack, i + 1);
    }
  }

  /** It is 1 for the scope of the current function and for no other local scope. */
  lemma CurrentFunctionIs(stack: Stack, i: nat)
    requires i < |stack| && stack[i].scope.Local?
    ensures LocalsFrom(stack, i) == 1 <==> forall j :: i < j < |stack| ==> !stack[j].scope.Local?
  {
    NoLocalsFrom(stack, i + 1);
  }

  /** Unsetting a variable of the current function leaves a placeholder that goes on hiding
      what lies below. */
  function Unsetting(stack: Stack, name: string): Result<Stack, Error> {
    match Lookup(stack, name, Anywhere)
    case None => Ok(stack)
    case Some(i) =>
      if stack[i].vars[name].readonly then Err(ReadonlyVariable)
      else if stack[i].scope.Local? && LocalsFrom(stack, i) == 1 then Ok(SetIn(stack, i, name, FRESH))
      else Ok(RemoveFrom(stack, i, name))
  }

  /** The number of variables in all frames. */
  function Entries(stack: Stack): nat {
    if stack == [] then 0 else Entries(stack[..|stack| - 1]) + |stack[|stack| - 1].vars|
  }

  lemma {:induction false} EntriesAfter(stack: Stack, i: nat, f: Frame)
    requires i < |stack|
    ensures Entries(stack[i := f]) == Entries(stack) - |stack[i].vars| + |f.vars|
  {
    var last := |stack| - 1;
    if i == last {
      assert stack[i := f][..last] == stack[..last];
    } else {
      assert stack[i := f][..last] == stack[..last][i := f];
      EntriesAfter(stack[..last], i, f);
    }
  }

  lemma SizeAfterSet(m: map<string, Variable>, name: string, v: Variable)
    ensures |m[name := v]| == if name in m then |m| else |m| + 1
  {
    assert m[name := v].Keys == m.Keys + {name};
    if name in m {
      assert m[name := v].Keys == m.Keys;
    }
    assert |m[name := v]| == |m[name := v].Keys| && |m| == |m.Keys|;
  }

  lemma SizeAfterRemove(m: map<string, Variable>, name: string)
    requires name in m
    ensures |m - {name}| == |m| - 1
  {
    assert (m - {name}).Keys == m.Keys - {name};
    assert |m - {name}| == |(m - {name}).Keys| && |m| == |m.Keys|;
  }

  lemma EntriesAfterSet(stack: Stack, i: nat, name: string, v: Variable)
    requires i < |stack|
    ensures Entries(SetIn(stack, i, name, v)) == Entries(stack) + if name in stack[i].vars then 0 else 1
  {
    EntriesAfter(stack, i, stack[i].(vars := stack[i].vars[name := v]));
    SizeAfterSet(stack[i].vars, name, v);
  }

  lemma EntriesAfterRemove(stack: Stack, i: nat, name: string)
    requires i < |stack| && name in stack[i].vars
    ensures Entries(RemoveFrom(stack, i, name)) == Entries(stack) - 1
  {
    EntriesAfter(stack, i, stack[i].(vars := stack[i].vars - {name}));
    SizeAfterRemove(stack[i].vars, name);
  }

  lemma VisibleStep(stack: Stack, policy: Policy, n: nat, locals: nat, above: map<string, Variable>)
    requires 0 < n <= |stack|
    ensures var f, count := stack[n - 1], CountLocal(stack[n - 1].scope, locals);
            Visible(stack, policy, n, locals) + above
            == if !Admits(policy, f.scope, count) then Visible(stack, policy, n - 1, count) + above
               else if f.scope.Local? && policy.OnlyInCurrentLocal? then f.vars + above
               else Visible(stack, policy, n - 1, count) + (f.vars + above)
  {
    var f, count := stack[n - 1], CountLocal(stack[n - 1].scope, locals);
    var below := Visible(stack, policy, n - 1, count);
    assert (below + f.vars) + above == below + (f.vars + above);
  }

  /** What the map built so far must come to. */
  ghost predicate Shows(stack: Stack, policy: Policy, shown: map<string, Variable>) {
    forall name :: Read(stack, name, policy) == if name in shown then Some(shown[name]) else None
  }

  lemma AllVisibleShows(stack: Stack, policy: Policy)
    ensures Shows(stack, policy, Visible(stack, policy, |stack|, 0))
  {
    forall name
      ensures var all := Visible(stack, policy, |stack|, 0);
              Read(stack, name, policy) == if name in all then Some(all[name]) else None
    {
      VisibleIsFound(stack, name, policy, |stack|, 0);
    }
  }

  class ShellEnvironment {
    var scopes: Stack
    var exportOnModification: bool
    var entryCount: nat

    /** The count is an upper bound only: leaving a scope does not lower it. */
    ghost predicate Valid()
      reads this
    {
      Entries(scopes) <= entryCount
    }

    constructor ()
      ensures Valid() && scopes == [Frame(Global, map[])] && !exportOnModification && entryCount == 0
    {
      scopes := [Frame(Global, map[])];
      exportOnModification := false;
      entryCount := 0;
    }

    method PushScope(scope: Scope)
      requires Valid()
      modifies this`scopes
      ensures Valid() && scopes == old(scopes) + [Frame(scope, map[])]
    {
      scopes := scopes + [Frame(scope, map[])];
      assert scopes[..|scopes| - 1] == old(scopes);
    }

    /** The frame goes even if it is not of the expected kind. */
    method PopScope(expected: Scope) returns (r: Result<(), Error>)
      requires Valid()
      modifies this`scopes
      ensures Valid()
      ensures old(scopes) == [] ==> scopes == [] && r == Err(MissingScope)
      ensures old(scopes) != [] ==>
                && scopes == old(scopes)[..|old(scopes)| - 1]
                && r == if old(scopes)[|old(scopes)| - 1].scope == expected then Ok(()) else Err(UnexpectedScopeType)
    {
      if scopes == [] {
        return Err(MissingScope);
      }
      var actual := scopes[|scopes| - 1].scope;
      scopes := scopes[..|scopes| - 1];
      r := if actual == expected then Ok(()) else Err(UnexpectedScopeType);
    }

    method GetUsingPolicy(name: string, policy: Policy) returns (r: Option<Variable>)
      ensures r == Read(scopes, name, policy)
    {
      var localCount := 0;
      var n := |scopes|;
      while n > 0
        invariant 0 <= n <= |scopes|
        invariant Lookup(scopes, name, policy) == Find(scopes, name, policy, n, localCount)
      {
        n := n - 1;
        var f := scopes[n];
        if f.scope.Local? {
          localCount := localCount + 1;
        }
        if !Admits(policy, f.scope, localCount) {
          continue;
        }
        if name in f.vars {
          return Some(f.vars[name]);
        }
        if f.scope.Local? && policy.OnlyInCurrentLocal? {
          break;
        }
      }
      r := None;
    }

    /** All visible variables: a name is in the map exactly when a search for it succeeds, and
        with the variable that the search finds. */
    method IterUsingPolicy(policy: Policy) returns (visibleVars: map<string, Variable>)
      ensures Shows(scopes, policy, visibleVars)
    {
      visibleVars := map[];
      var localCount := 0;
      var n := |scopes|;
      ghost var all := Visible(scopes, policy, |scopes|, 0);
      while n > 0
        invariant 0 <= n <= |scopes|
        invariant all == Visible(scopes, policy, n, localCount) + visibleVars
      {
        VisibleStep(scopes, policy, n, localCount, visibleVars);
        n := n - 1;
        var f := scopes[n];
        if f.scope.Local? {
          localCount := localCount + 1;
        }
        if !Admits(policy, f.scope, localCount) {
          continue;
        }
        visibleVars := f.vars + visibleVars;
        if f.scope.Local? && policy.OnlyInCurrentLocal? {
          AllVisibleShows(scopes, policy);
          return;
        }
      }
      assert visibleVars == all;
      AllVisibleShows(scopes, policy);
    }

    method Add(name: string, v: Variable, target: Scope) returns (r: Result<(), Error>)
      requires Valid()
      modifies this`scopes, this`entryCount
      ensures Valid()
      ensures match Added(old(scopes), name, v, target, exportOnModification)
              case Ok(stack) => r == Ok(()) && scopes == stack
              case Err(e) => r == Err(e) && scopes == old(scopes)
    {
      hide Entries, Topmost;
      var exported := v.(exported := v.exported || exportOnModification);
      var i := |scopes|;
      while i > 0
        invariant 0 <= i <= |scopes| && scopes == old(scopes) && entryCount == old(entryCount)
        invariant forall j :: i <= j < |scopes| ==> scopes[j].scope != target
      {
        i := i - 1;
        if scopes[i].scope == target {
          EntriesAfterSet(scopes, i, name, exported);
          TopmostIs(scopes, target, i);
          if name !in scopes[i].vars {
            entryCount := entryCount + 1;
          }
          scopes := SetIn(scopes, i, name, exported);
          return Ok(());
        }
      }
      r := Err(MissingScopeForNewVariable);
    }

    method UpdateOrAdd(name: string, s: string, policy: Policy, target: Scope) returns (r: Result<(), Error>)
      requires Valid()
      modifies this`scopes, this`entryCount
      ensures Valid()
      ensures match Updated(old(scopes), name, s, policy, target, exportOnModification)
              case Ok(stack) => r == Ok(()) && scopes == stack
              case Err(e) => r == Err(e) && scopes == old(scopes)
    {
      var found := Lookup(scopes, name, policy);
      if found.Some? {
        var i := found.value;
        var v := scopes[i].vars[name];
        if v.readonly {
          return Err(ReadonlyVariable);
        }
        EntriesAfterSet(scopes, i, name, Assigned(v, s, exportOnModification));
        scopes := SetIn(scopes, i, name, Assigned(v, s, exportOnModification));
        r := Ok(());
      } else {
        r := Add(name, Assigned(FRESH, s, exportOnModification), target);
      }
    }

    method UnsetVariable(name: string) returns (r: Result<Option<Variable>, Error>)
      requires Valid()
      modifies this`scopes, this`entryCount
      ensures Valid()
      ensures match Unsetting(old(scopes), name)
              case Ok(stack) => r == Ok(Read(old(scopes), name, Anywhere)) && scopes == stack
              case Err(e) => r == Err(e) && scopes == old(scopes)
    {
      var localCount := 0;
      var n := |scopes|;
      while n > 0
        invariant 0 <= n <= |scopes| && scopes == old(scopes) && entryCount == old(entryCount)
        invariant localCount == LocalsFrom(scopes, n)
        invariant Lookup(scopes, name, Anywhere) == Find(scopes, name, Anywhere, n, localCount)
      {
        n := n - 1;
        var f := scopes[n];
        if f.scope.Local? {
          localCount := localCount + 1;
        }
        if name in f.vars {
          if f.vars[name].readonly {
            return Err(ReadonlyVariable);
          }
          r := Ok(Some(f.vars[name]));
          if f.scope.Local? && localCount == 1 {
            EntriesAfterSet(scopes, n, name, FRESH);
            scopes := SetIn(scopes, n, name, FRESH);
          } else {
            EntriesAfterRemove(scopes, n, name);
            if entryCount > 0 {
              entryCount := entryCount - 1;
            }
            scopes := RemoveFrom(scopes, n, name);
          }
          return;
        }
      }
      r := Ok(None);
    }
  }

  // ----- What a change does to later look-ups ---------------------------------------------------

  /** Two stacks with the same scopes that hold a name in the same frames find it in the same
      frame. */
  lemma {:induction false} FindDependsOn(a: Stack, b: Stack, name: string, policy: Policy, n: nat, locals: nat)
    requires n <= |a| == |b|
    requires forall i :: 0 <= i < n ==> a[i].scope == b[i].scope && (name in a[i].vars <==> name in b[i].vars)
    ensures Find(a, name, policy, n, locals) == Find(b, name, policy, n, locals)
  {
    if n > 0 {
      FindDependsOn(a, b, name, policy, n - 1, CountLocal(a[n - 1].scope, locals));
    }
  }

  /** Whether a variable that is created in a scope of the given kind is found by a policy. */
  predicate Fits(policy: Policy, target: Scope) {
    match policy
    case Anywhere => true
    case OnlyInGlobal => target.Global?
    case OnlyInCurrentLocal => target.Local?
    case OnlyInLocal => target.Local?
  }

  lemma {:induction false} FindCreated(stack: Stack, i: nat, name: string, v: Variable, policy: Policy, n: nat, locals: nat)
    requires i < n <= |stack| && Find(stack, name, policy, n, locals).None?
    requires forall j :: i < j < n ==> stack[j].scope != stack[i].scope
    requires stack[i].scope.Local? ==> locals == 0
    ensures Find(SetIn(stack, i, name, v), name, policy, n, locals)
            == if Fits(policy, stack[i].scope) then Some(i) else None
  {
    var f := stack[n - 1];
    var count := CountLocal(f.scope, locals);
    if n - 1 == i {
      if !Fits(policy, f.scope) {
        FindDependsOn(SetIn(stack, i, name, v), stack, name, policy, n - 1, count);
      }
    } else if !(Admits(policy, f.scope, count) && f.scope.Local? && policy.OnlyInCurrentLocal?) {
      FindCreated(stack, i, name, v, policy, n - 1, count);
    }
  }

  /** After an assignment, looking the name up by the same policy gives the new value, if the
      name was found before or the scope it was created in is one that the policy looks into;
      otherwise it still finds nothing. */
  lemma ReadAfterUpdate(stack: Stack, name: string, s: string, policy: Policy, target: Scope, autoExport: bool)
    ensures var r := Updated(stack, name, s, policy, target, autoExport);
            r.Ok? ==>
              if Read(stack, name, policy).Some? || Fits(policy, target)
              then Read(r.value, name, policy).Some? && Scalar(Read(r.value, name, policy).value.value) == Some(s)
              else Read(r.value, name, policy).None?
  {
    var r := Updated(stack, name, s, policy, target, autoExport);
    match Lookup(stack, name, policy)
    case Some(i) =>
      if r.Ok? {
        FindDependsOn(stack, r.value, name, policy, |stack|, 0);
      }
    case None =>
      if r.Ok? {
        var i := Topmost(stack, target).value;
        FindCreated(stack, i, name, Assigned(FRESH, s, autoExport), policy, |stack|, 0);
      }
  }

  /** No assignment, whatever its policy and scope, touches what another name reads as. */
  lemma UpdateKeepsOthers(stack: Stack, name: string, s: string, policy: Policy, target: Scope, autoExport: bool,
                          other: string, lookup: Policy)
    requires other != name && Updated(stack, name, s, policy, target, autoExport).Ok?
    ensures Read(Updated(stack, name, s, policy, target, autoExport).value, other, lookup) == Read(stack, other, lookup)
  {
    hide Find, Topmost, Assigned;
    FindDependsOn(stack, Updated(stack, name, s, policy, target, autoExport).value, other, lookup, |stack|, 0);
  }

  lemma {:induction false} FindUnsetting(stack: Stack, i: nat, name: string, n: nat, locals: nat)
    requires i < n <= |stack| && Find(stack, name, Anywhere, n, locals) == Some(i)
    ensures Find(RemoveFrom(stack, i, name), name, Anywhere, n, locals) == Find(stack, name, Anywhere, i, 0)
  {
    if n - 1 == i {
      FindDependsOn(RemoveFrom(stack, i, name), stack, name, Anywhere, i, CountLocal(stack[i].scope, locals));
      AnywhereIgnoresLocals(stack, name, i, CountLocal(stack[i].scope, locals), 0);
    } else {
      FindUnsetting(stack, i, name, n - 1, CountLocal(stack[n - 1].scope, locals));
    }
  }

  lemma {:induction false} AnywhereIgnoresLocals(stack: Stack, name: string, n: nat, a: nat, b: nat)
    requires n <= |stack|
    ensures Find(stack, name, Anywhere, n, a) == Find(stack, name, Anywhere, n, b)
  {
    if n > 0 {
      AnywhereIgnoresLocals(stack, name, n - 1, CountLocal(stack[n - 1].scope, a), CountLocal(stack[n - 1].scope, b));
    }
  }

  /** Unsetting a variable of the current function leaves the name unset, whatever lies below;
      anywhere else it uncovers the next binding below. */
  lemma ReadAfterUnset(stack: Stack, name: string, i: nat)
    requires Lookup(stack, name, Anywhere) == Some(i) && !stack[i].vars[name].readonly
    ensures var stack' := Unsetting(stack, name).value;
            if stack[i].scope.Local? && LocalsFrom(stack, i) == 1
            then Read(stack', name, Anywhere) == Some(FRESH)
            else Lookup(stack', name, Anywhere) == Find(stack, name, Anywhere, i, 0)
  {
    if stack[i].scope.Local? && LocalsFrom(stack, i) == 1 {
      FindDependsOn(stack, SetIn(stack, i, name, FRESH), name, Anywhere, |stack|, 0);
    } else {
      FindUnsetting(stack, i, name, |stack|, 0);
    }
  }

  /** An assignment to a variable that is there leaves its attributes and the other elements of an array; one
      that is new has no attribute but being exported where assignments export. */
  lemma AttributesStay(stack: Stack, name: string, s: string, policy: Policy, target: Scope, autoExport: bool)
    requires Updated(stack, name, s, policy, target, autoExport).Ok?
    requires Read(stack, name, policy).Some? || Fits(policy, target)
    ensures var after := Read(Updated(stack, name, s, policy, target, autoExport).value, name, policy);
            after.Some?
            && match Read(stack, name, policy)
               case None => after.value == Variable(Str(s), autoExport, false)
               case Some(v) =>
                 && !v.readonly && !after.value.readonly && (after.value.exported <==> v.exported || autoExport)
                 && after.value.value == if v.value.Indexed? then Indexed(v.value.elements[0 := s]) else Str(s)
  {
    var r := Updated(stack, name, s, policy, target, autoExport).value;
    match Lookup(stack, name, policy)
    case Some(i) => FindDependsOn(stack, r, name, policy, |stack|, 0);
    case None => FindCreated(stack, Topmost(stack, target).value, name, Assigned(FRESH, s, autoExport), policy, |stack|, 0);
  }
}
