/** The system proxy: apply, clear and the watchdog take turns under one lock, while the computer's
    network services and their settings may change at any moment. One step is one OS command. */
module SystemProxy {
  // ----- the operating system -----

  /** The proxy settings of one network service: switched on, and pointing at the agent. */
  datatype Service = Service(httpOn: bool, httpHere: bool, httpsOn: bool, httpsHere: bool)
  {
    predicate WebHere() { httpOn && httpHere }

    predicate SecureHere() { httpsOn && httpsHere }

    predicate PointsHere() { WebHere() && SecureHere() }
  }

  type Services = map<string, Service>

  datatype Verb = SetWeb | WebOn | SetSecure | SecureOn | Bypass | WebOff | SecureOff

  datatype Command = Command(verb: Verb, service: string)

  function Changed(v: Verb, s: Service): Service {
    match v
    case SetWeb => s.(httpHere := true)
    case WebOn => s.(httpOn := true)
    case SetSecure => s.(httpsHere := true)
    case SecureOn => s.(httpsOn := true)
    case Bypass => s
    case WebOff => s.(httpOn := false)
    case SecureOff => s.(httpsOn := false)
  }

  /** A command for a service that is gone does nothing. */
  function Execute(os: Services, c: Command): Services {
    if c.service in os then os[c.service := Changed(c.verb, os[c.service])] else os
  }

  predicate Arms(v: Verb) { v == SetWeb || v == WebOn || v == SetSecure || v == SecureOn }

  function ApplyTo(svc: string): seq<Command> {
    [Command(SetWeb, svc), Command(WebOn, svc), Command(SetSecure, svc), Command(SecureOn, svc), Command(Bypass, svc)]
  }

  function ApplyAll(names: seq<string>): seq<Command> {
    if names == [] then [] else ApplyTo(names[0]) + ApplyAll(names[1..])
  }

  function ClearOf(svc: string): seq<Command> { [Command(WebOff, svc), Command(SecureOff, svc)] }

  function ClearAll(names: seq<string>): seq<Command> {
    if names == [] then []
    else ClearOf(names[0]) + ClearAll(names[1..])
  }

  // ----- the agent -----

  datatype Kind = Apply | Clear | Watchdog

  /** Where the holder of the lock is. */
  datatype Place =
    | Enter
    | ListToCheck
    | Checking(names: seq<string>, missing: bool)
    | CheckingSecure(name: string, rest: seq<string>, missing: bool, web: bool)
    | ListToApply
    | ListToClear
    | Running(commands: seq<Command>)

  datatype Lock = Free | Held(kind: Kind, place: Place)

  datatype State = State(os: Services, heldOff: bool, lock: Lock)

  /** Somebody takes the lock; its holder does its next thing, the OS command in it succeeding or not
      and a listing naming the services in some order; or the outside world changes the services. */
  datatype Action = Acquire(kind: Kind) | Act(ok: bool, listing: seq<string>) | Outside(os: Services)

  function Names(s: State, a: Action): seq<string>
    requires a.Act?
  {
    if a.ok && (set n | n in a.listing) == s.os.Keys then a.listing else []
  }

  function Step(s: State, a: Action): State {
    match a
    case Outside(os) => s.(os := os)
    case Acquire(kind) => if s.lock.Free? then s.(lock := Held(kind, Enter)) else s
    case Act(ok, _) => if s.lock.Free? then s else HolderStep(s, a)
  }

  function HolderStep(s: State, a: Action): State
    requires a.Act? && s.lock.Held?
  {
    var kind := s.lock.kind;
    match s.lock.place
    case Enter =>
      (match kind
       case Apply => s.(heldOff := false, lock := Held(kind, ListToApply))
       case Clear => s.(heldOff := true, lock := Held(kind, ListToClear))
       case Watchdog => s.(lock := if s.heldOff then Free else Held(kind, ListToCheck)))
    case ListToCheck => s.(lock := Held(kind, Checking(Names(s, a), false)))
    case Checking(names, missing) =>
      if names == [] then
        if missing then s.(heldOff := false, lock := Held(kind, ListToApply)) else s.(lock := Free)
      else
        var web := a.ok && names[0] in s.os && s.os[names[0]].WebHere();
        s.(lock := Held(kind, CheckingSecure(names[0], names[1..], missing, web)))
    case CheckingSecure(name, rest, missing, web) =>
      var secure := a.ok && name in s.os && s.os[name].SecureHere();
      s.(lock := Held(kind, Checking(rest, missing || !web || !secure)))
    case ListToApply => s.(lock := Held(kind, Running(ApplyAll(Names(s, a)))))
    case ListToClear => s.(lock := Held(kind, Running(ClearAll(Names(s, a)))))
    case Running(commands) =>
      if commands == [] then s.(lock := Free)
      else s.(os := if a.ok then Execute(s.os, commands[0]) else s.os, lock := Held(kind, Running(commands[1..])))
  }

  function After(s: State, acts: seq<Action>): State {
    if acts == [] then s else Step(After(s, acts[..|acts| - 1]), acts[|acts| - 1])
  }

  /** The agent as it starts: nothing is armed yet. */
  function Start(os: Services): State { State(os, true, Free) }

  // ----- safety -----

  /** The agent is about to switch a service's proxy on, or point it here. */
  predicate ArmsService(s: State, a: Action) {
    && a.Act? && s.lock.Held? && s.lock.place.Running? && s.lock.place.commands != []
    && Arms(s.lock.place.commands[0].verb)
  }

  /** Apply takes the lock. */
  predicate ApplyBegins(s: State, a: Action) {
    a == Acquire(Apply) && s.lock.Free?
  }

  /** Clear returns. */
  predicate ClearReturns(s: State, a: Action) {
    && a.Act? && s.lock.Held? && s.lock.kind == Clear
    && s.lock.place.Running? && s.lock.place.commands == []
  }

  ghost predicate Inv(s: State) {
    s.lock.Held? ==>
      match s.lock.place
      case Enter => true
      case ListToCheck => s.lock.kind == Watchdog && !s.heldOff
      case Checking(_, _) => s.lock.kind == Watchdog && !s.heldOff
      case CheckingSecure(_, _, _, _) => s.lock.kind == Watchdog && !s.heldOff
      case ListToApply => s.lock.kind != Clear && !s.heldOff
      case ListToClear => s.lock.kind == Clear && s.heldOff
      case Running(commands) =>
        if s.lock.kind == Clear then s.heldOff && forall i | 0 <= i < |commands| :: !Arms(commands[i].verb)
        else !s.heldOff
  }

  lemma {:induction false} ClearNeverArms(names: seq<string>)
    ensures forall i | 0 <= i < |ClearAll(names)| :: !Arms(ClearAll(names)[i].verb)
  {
    if names != [] {
      ClearNeverArms(names[1..]);
    }
  }

  lemma StepKeeps(s: State, a: Action)
    requires Inv(s)
    ensures Inv(Step(s, a))
  {
    if a.Act? && s.lock.Held? && s.lock.place.ListToClear? {
      ClearNeverArms(Names(s, a));
    }
  }

  lemma {:induction false} RunKeeps(os: Services, acts: seq<Action>)
    ensures Inv(After(Start(os), acts))
  {
    if acts != [] {
      RunKeeps(os, acts[..|acts| - 1]);
      StepKeeps(After(Start(os), acts[..|acts| - 1]), acts[|acts| - 1]);
    }
  }

  /** The watchdog and apply are only ever arming services while the agent is not held off. */
  lemma HeldOffIsQuiet(os: Services, acts: seq<Action>, a: Action)
    requires After(Start(os), acts).heldOff
    ensures !ArmsService(After(Start(os), acts), a)
  {
    RunKeeps(os, acts);
  }

  /** In between, only apply can end being held off. */
  ghost predicate Standing(s: State) {
    Inv(s) && s.heldOff && (s.lock.Held? ==> s.lock.kind != Apply)
  }

  lemma StandingStays(s: State, a: Action)
    requires Standing(s) && !ApplyBegins(s, a)
    ensures Standing(Step(s, a)) && !ArmsService(s, a)
  {
    StepKeeps(s, a);
  }

  /** Once clear has returned, nothing the agent does arms a service until apply runs again, whatever
      happens in between: watchdog passes, further clears, and any change from outside. */
  lemma {:induction false} QuietAfterClear(os: Services, before: seq<Action>, ret: Action, acts: seq<Action>, k: nat)
    requires ClearReturns(After(Start(os), before), ret)
    requires k <= |acts|
    requires var s := Step(After(Start(os), before), ret);
      forall i | 0 <= i < k :: !ApplyBegins(After(s, acts[..i]), acts[i])
    ensures var s := Step(After(Start(os), before), ret);
      && After(s, acts[..k]).heldOff
      && forall i | 0 <= i < k :: !ArmsService(After(s, acts[..i]), acts[i])
  {
    RunKeeps(os, before);
    var s := Step(After(Start(os), before), ret);
    assert Standing(s);
    StandsQuietly(s, acts, k);
  }

  lemma {:induction false} StandsOn(s: State, acts: seq<Action>, k: nat)
    requires Standing(s) && k <= |acts|
    requires forall i | 0 <= i < k :: !ApplyBegins(After(s, acts[..i]), acts[i])
    ensures Standing(After(s, acts[..k]))
  {
    if k > 0 {
      StandsOn(s, acts, k - 1);
      assert acts[..k][..k - 1] == acts[..k - 1];
      StandingStays(After(s, acts[..k - 1]), acts[k - 1]);
    }
  }

  lemma StandsQuietly(s: State, acts: seq<Action>, k: nat)
    requires Standing(s) && k <= |acts|
    requires forall i | 0 <= i < k :: !ApplyBegins(After(s, acts[..i]), acts[i])
    ensures After(s, acts[..k]).heldOff
    ensures forall i | 0 <= i < k :: !ArmsService(After(s, acts[..i]), acts[i])
  {
    StandsOn(s, acts, k);
    forall i | 0 <= i < k
      ensures !ArmsService(After(s, acts[..i]), acts[i])
    {
      StandsOn(s, acts, i);
    }
  }

  /** From its start the agent arms nothing until apply first takes the lock. */
  lemma QuietFromStart(os: Services, acts: seq<Action>, k: nat)
    requires k <= |acts|
    requires forall i | 0 <= i < k :: !ApplyBegins(After(Start(os), acts[..i]), acts[i])
    ensures After(Start(os), acts[..k]).heldOff
    ensures forall i | 0 <= i < k :: !ArmsService(After(Start(os), acts[..i]), acts[i])
  {
    StandsQuietly(Start(os), acts, k);
  }

  // ----- restoring -----

  ghost predicate AllPointHere(os: Services) {
    forall n | n in os :: os[n].PointsHere()
  }

  function ExecuteAll(os: Services, cs: seq<Command>): Services {
    if cs == [] then os else ExecuteAll(Execute(os, cs[0]), cs[1..])
  }

  lemma {:induction false} ExecuteAppend(os: Services, a: seq<Command>, b: seq<Command>)
    ensures ExecuteAll(os, a + b) == ExecuteAll(ExecuteAll(os, a), b)
    decreases |a|
  {
    if a == [] {
      assert a + b == b;
    } else {
      assert (a + b)[1..] == a[1..] + b;
      ExecuteAppend(Execute(os, a[0]), a[1..], b);
    }
  }

  /** Applying never takes a setting away. */
  lemma {:induction false} ApplyOnlyAdds(os: Services, names: seq<string>, n: string)
    requires n in os && (os[n].PointsHere() || n in names)
    ensures var os' := ExecuteAll(os, ApplyAll(names));
      os'.Keys == os.Keys && os'[n].PointsHere()
    decreases |names|
  {
    if names != [] {
      var mid := ExecuteAll(os, ApplyTo(names[0]));
      ExecuteAppend(os, ApplyTo(names[0]), ApplyAll(names[1..]));
      AppliedTo(os, names[0]);
      assert names == [names[0]] + names[1..];
      ApplyOnlyAdds(mid, names[1..], n);
    }
  }

  lemma AppliedTo(os: Services, svc: string)
    ensures ExecuteAll(os, ApplyTo(svc)) == if svc in os then os[svc := Service(true, true, true, true)] else os
  {
    var os1 := Execute(os, Command(SetWeb, svc));
    var os2 := Execute(os1, Command(WebOn, svc));
    var os3 := Execute(os2, Command(SetSecure, svc));
    var os4 := Execute(os3, Command(SecureOn, svc));
    var os5 := Execute(os4, Command(Bypass, svc));
    assert ApplyTo(svc) == [Command(SetWeb, svc)] + ([Command(WebOn, svc)] + ([Command(SetSecure, svc)]
      + ([Command(SecureOn, svc)] + ([Command(Bypass, svc)] + []))));
    ExecuteFirst(os, Command(SetWeb, svc), [Command(WebOn, svc)] + ([Command(SetSecure, svc)]
      + ([Command(SecureOn, svc)] + ([Command(Bypass, svc)] + []))));
    ExecuteFirst(os1, Command(WebOn, svc), [Command(SetSecure, svc)]
      + ([Command(SecureOn, svc)] + ([Command(Bypass, svc)] + [])));
    ExecuteFirst(os2, Command(SetSecure, svc), [Command(SecureOn, svc)] + ([Command(Bypass, svc)] + []));
    ExecuteFirst(os3, Command(SecureOn, svc), [Command(Bypass, svc)] + []);
    ExecuteFirst(os4, Command(Bypass, svc), []);
    if svc in os {
      assert os5 == os[svc := Service(true, true, true, true)];
    }
  }

  lemma ExecuteFirst(os: Services, c: Command, rest: seq<Command>)
    ensures ExecuteAll(os, [c] + rest) == ExecuteAll(Execute(os, c), rest)
  {
    assert ([c] + rest)[1..] == rest;
  }

  /** `n` undisturbed moves of the lock's holder: every command succeeds, nobody else acts. */
  function Undisturbed(s: State, listing: seq<string>, n: nat): State {
    if n == 0 then s else Step(Undisturbed(s, listing, n - 1), Act(true, listing))
  }

  ghost predicate AllOff(os: Services) {
    forall n | n in os :: !os[n].httpOn && !os[n].httpsOn
  }

  lemma {:induction false} ClearTurnsOff(os: Services, names: seq<string>, n: string)
    requires n in os && ((!os[n].httpOn && !os[n].httpsOn) || n in names)
    ensures var os' := ExecuteAll(os, ClearAll(names));
      n in os' && !os'[n].httpOn && !os'[n].httpsOn
    decreases |names|
  {
    if names != [] {
      var web, secure := Command(WebOff, names[0]), Command(SecureOff, names[0]);
      var mid := Execute(Execute(os, web), secure);
      assert ClearAll(names) == [web] + ([secure] + ClearAll(names[1..]));
      ExecuteFirst(os, web, [secure] + ClearAll(names[1..]));
      ExecuteFirst(Execute(os, web), secure, ClearAll(names[1..]));
      assert names == [names[0]] + names[1..];
      ClearTurnsOff(mid, names[1..], n);
    }
  }

  /** What taking the lock is for: clear turns everything off, the others make everything point here. */
  ghost predicate Goal(kind: Kind, os: Services) {
    if kind == Clear then AllOff(os) else AllPointHere(os)
  }

  /** Moves the holder has left at most. */
  function Left(place: Place, services: nat): nat {
    match place
    case Enter => 7 * services + 5
    case ListToCheck => 7 * services + 4
    case Checking(names, _) => 2 * |names| + 5 * services + 3
    case CheckingSecure(_, rest, _, _) => 2 * |rest| + 5 * services + 4
    case ListToApply => 5 * services + 2
    case ListToClear => 2 * services + 2
    case Running(commands) => |commands| + 1
  }

  /** What an undisturbed pass keeps: the services that were checked point here unless one was found
      missing, and the commands still to come will reach the goal. */
  ghost predicate OnTheWay(s: State, kind: Kind, listing: seq<string>) {
    && (set n | n in listing) == s.os.Keys
    && (s.lock.Free? ==> Goal(kind, s.os) && s.heldOff == (kind == Clear))
    && (s.lock.Held? ==> s.lock.kind == kind && Underway(s.os, s.heldOff, kind, s.lock.place))
  }

  ghost predicate Underway(os: Services, heldOff: bool, kind: Kind, place: Place) {
    match place
    case Enter => kind == Watchdog ==> !heldOff
    case ListToCheck => kind == Watchdog && !heldOff
    case Checking(names, missing) =>
      && kind == Watchdog && !heldOff
      && (!missing ==> forall n | n in os && n !in names :: os[n].PointsHere())
    case CheckingSecure(name, rest, missing, web) =>
      && kind == Watchdog && !heldOff
      && (!missing ==> forall n | n in os && n != name && n !in rest :: os[n].PointsHere())
      && (web && name in os ==> os[name].WebHere())
    case ListToApply => kind != Clear && !heldOff
    case ListToClear => kind == Clear && heldOff
    case Running(commands) => Goal(kind, ExecuteAll(os, commands)) && heldOff == (kind == Clear)
  }

  lemma {:induction false} CommandCount(names: seq<string>)
    ensures |ApplyAll(names)| == 5 * |names| && |ClearAll(names)| == 2 * |names|
  {
    if names != [] {
      CommandCount(names[1..]);
    }
  }

  lemma CommandsReachGoal(os: Services, names: seq<string>)
    requires (set n | n in names) == os.Keys
    ensures AllPointHere(ExecuteAll(os, ApplyAll(names))) && AllOff(ExecuteAll(os, ClearAll(names)))
  {
    SameKeys(os, ApplyAll(names));
    SameKeys(os, ClearAll(names));
    forall n | n in os
      ensures n in names
      ensures ExecuteAll(os, ApplyAll(names))[n].PointsHere()
      ensures var s := ExecuteAll(os, ClearAll(names))[n]; !s.httpOn && !s.httpsOn
    {
      assert n in set x | x in names;
      ApplyOnlyAdds(os, names, n);
      ClearTurnsOff(os, names, n);
    }
  }

  lemma MoveKeeps(s: State, kind: Kind, listing: seq<string>)
    requires OnTheWay(s, kind, listing) && s.lock.Held?
    ensures var t := Step(s, Act(true, listing));
      && OnTheWay(t, kind, listing) && t.os.Keys == s.os.Keys
      && (t.lock.Held? ==> Left(t.lock.place, |listing|) < Left(s.lock.place, |listing|))
  {
    if s.lock.place.ListToApply? || s.lock.place.ListToClear? {
      CommandCount(listing);
      CommandsReachGoal(s.os, listing);
    }
  }

  lemma {:induction false} SameKeys(os: Services, cs: seq<Command>)
    ensures ExecuteAll(os, cs).Keys == os.Keys
    decreases |cs|
  {
    if cs != [] {
      SameKeys(Execute(os, cs[0]), cs[1..]);
    }
  }

  lemma {:induction false} MovesKeep(s: State, kind: Kind, listing: seq<string>, n: nat)
    requires OnTheWay(s, kind, listing) && s.lock.Held?
    ensures var t := Undisturbed(s, listing, n);
      && OnTheWay(t, kind, listing) && t.os.Keys == s.os.Keys
      && (t.lock.Held? ==> Left(t.lock.place, |listing|) + n <= Left(s.lock.place, |listing|))
  {
    if n > 0 {
      MovesKeep(s, kind, listing, n - 1);
      var t := Undisturbed(s, listing, n - 1);
      if t.lock.Held? {
        MoveKeeps(t, kind, listing);
      }
    }
  }

  /** Whoever finds the lock free gets it, and its pass ends if nobody interferes, whatever state the
      services were in: apply, and the watchdog while not held off, leave the proxies of every service on
      and pointing here; clear leaves those of every service off, and holds off. */
  lemma PassReachesGoal(s: State, kind: Kind, listing: seq<string>)
    requires s.lock.Free? && (kind == Watchdog ==> !s.heldOff)
    requires (set n | n in listing) == s.os.Keys
    ensures var t := Undisturbed(Step(s, Acquire(kind)), listing, 7 * |listing| + 6);
      && t.lock.Free? && t.os.Keys == s.os.Keys && t.heldOff == (kind == Clear)
      && forall n | n in t.os ::
        if kind == Clear then !t.os[n].httpOn && !t.os[n].httpsOn else t.os[n] == Service(true, true, true, true)
  {
    MovesKeep(Step(s, Acquire(kind)), kind, listing, 7 * |listing| + 6);
  }

  /** A watchdog pass that finds every service in order leaves everything alone. */
  lemma QuietWhenInOrder(s: State, listing: seq<string>, n: nat)
    requires s.lock.Free? && (forall x | x in s.os :: s.os[x] == Service(true, true, true, true))
    requires (set x | x in listing) == s.os.Keys
    ensures var t := Undisturbed(Step(s, Acquire(Watchdog)), listing, n);
      t.os == s.os && t.heldOff == s.heldOff && !ArmsService(t, Act(true, listing))
  {
    StaysInOrder(Step(s, Acquire(Watchdog)), listing, n);
  }

  /** A watchdog that has found nothing missing, and nothing is. */
  ghost predicate InOrder(s: State) {
    && (forall x | x in s.os :: s.os[x].PointsHere())
    && (s.lock.Held? ==> s.lock.kind == Watchdog && NothingMissing(s.os, s.lock.place))
  }

  ghost predicate NothingMissing(os: Services, place: Place) {
    match place
    case Enter => true
    case ListToCheck => true
    case Checking(names, missing) => !missing && forall x | x in names :: x in os
    case CheckingSecure(name, rest, missing, web) => !missing && web && name in os && forall x | x in rest :: x in os
    case _ => false
  }

  lemma {:induction false} StaysInOrder(s: State, listing: seq<string>, n: nat)
    requires InOrder(s) && (set x | x in listing) == s.os.Keys
    ensures var t := Undisturbed(s, listing, n);
      InOrder(t) && t.os == s.os && t.heldOff == s.heldOff
  {
    if n > 0 {
      StaysInOrder(s, listing, n - 1);
      MoveInOrder(Undisturbed(s, listing, n - 1), listing);
    }
  }

  lemma MoveInOrder(s: State, listing: seq<string>)
    requires InOrder(s) && (set x | x in listing) == s.os.Keys
    ensures var t := Step(s, Act(true, listing));
      InOrder(t) && t.os == s.os && t.heldOff == s.heldOff
  {
    assert forall x | x in listing :: x in set y | y in listing;
  }

  // ----- when commands fail -----

  ghost predicate GoalFor(kind: Kind, s: Service) {
    if kind == Clear then !s.httpOn && !s.httpsOn else s.PointsHere()
  }

  /** A service after those of the commands that are for it. */
  function Owned(s: Service, cs: seq<Command>, n: string): Service
    decreases |cs|
  {
    if cs == [] then s else Owned(if cs[0].service == n then Changed(cs[0].verb, s) else s, cs[1..], n)
  }

  lemma {:induction false} OwnedAppend(s: Service, a: seq<Command>, b: seq<Command>, n: string)
    ensures Owned(s, a + b, n) == Owned(Owned(s, a, n), b, n)
    decreases |a|
  {
    if a == [] {
      assert a + b == b;
    } else {
      assert (a + b)[1..] == a[1..] + b;
      OwnedAppend(if a[0].service == n then Changed(a[0].verb, s) else s, a[1..], b, n);
    }
  }

  lemma {:induction false} OwnedReachesGoal(s: Service, names: seq<string>, n: string)
    ensures n in names || s.PointsHere() ==> Owned(s, ApplyAll(names), n).PointsHere()
    ensures n in names || GoalFor(Clear, s) ==> GoalFor(Clear, Owned(s, ClearAll(names), n))
    decreases |names|
  {
    if names != [] {
      var rest := names[1..];
      assert names == [names[0]] + rest;
      OwnedApplied(s, names[0], n);
      OwnedCleared(s, names[0], n);
      OwnedAppend(s, ApplyTo(names[0]), ApplyAll(rest), n);
      OwnedAppend(s, ClearOf(names[0]), ClearAll(rest), n);
      OwnedReachesGoal(Owned(s, ApplyTo(names[0]), n), rest, n);
      OwnedReachesGoal(Owned(s, ClearOf(names[0]), n), rest, n);
    }
  }

  lemma OwnedOne(s: Service, c: Command, rest: seq<Command>, n: string)
    ensures Owned(s, [c] + rest, n) == Owned(if c.service == n then Changed(c.verb, s) else s, rest, n)
  {
    assert ([c] + rest)[1..] == rest;
  }

  lemma OwnedApplied(s: Service, svc: string, n: string)
    ensures Owned(s, ApplyTo(svc), n) == if svc == n then Service(true, true, true, true) else s
  {
    var a, b, c, d, e := Command(SetWeb, svc), Command(WebOn, svc), Command(SetSecure, svc),
      Command(SecureOn, svc), Command(Bypass, svc);
    assert ApplyTo(svc) == [a] + ([b] + ([c] + ([d] + ([e] + []))));
    var own := svc == n;
    var s1 := if own then Changed(a.verb, s) else s;
    var s2 := if own then Changed(b.verb, s1) else s1;
    var s3 := if own then Changed(c.verb, s2) else s2;
    var s4 := if own then Changed(d.verb, s3) else s3;
    OwnedOne(s, a, [b] + ([c] + ([d] + ([e] + []))), n);
    OwnedOne(s1, b, [c] + ([d] + ([e] + [])), n);
    OwnedOne(s2, c, [d] + ([e] + []), n);
    OwnedOne(s3, d, [e] + [], n);
    OwnedOne(s4, e, [], n);
  }

  lemma OwnedCleared(s: Service, svc: string, n: string)
    ensures Owned(s, ClearOf(svc), n) == if svc == n then s.(httpOn := false, httpsOn := false) else s
  {
    var a, b := Command(WebOff, svc), Command(SecureOff, svc);
    assert ClearOf(svc) == [a] + ([b] + []);
    OwnedOne(s, a, [b] + [], n);
    OwnedOne(if svc == n then Changed(a.verb, s) else s, b, [], n);
  }

  /** What a pass keeps for one service, whatever fails for others: the check has not passed it over, and
      its own commands still to come will reach the goal. */
  ghost predicate OwnUnderway(s: State, kind: Kind, n: string)
    requires s.lock.Held? && n in s.os
  {
    match s.lock.place
    case Enter => kind == Watchdog ==> !s.heldOff
    case ListToCheck => kind == Watchdog && !s.heldOff
    case Checking(names, missing) => kind == Watchdog && !s.heldOff && (n in names || missing || s.os[n].PointsHere())
    case CheckingSecure(name, rest, missing, web) =>
      && kind == Watchdog && !s.heldOff
      && (n in rest || missing || s.os[n].PointsHere() || (n == name && (web ==> s.os[n].WebHere())))
    case ListToApply => kind != Clear && !s.heldOff
    case ListToClear => kind == Clear && s.heldOff
    case Running(commands) => GoalFor(kind, Owned(s.os[n], commands, n)) && s.heldOff == (kind == Clear)
  }

  ghost predicate OwnOnTheWay(s: State, kind: Kind, listing: seq<string>, n: string) {
    && (set x | x in listing) == s.os.Keys && n in s.os
    && (s.lock.Free? ==> GoalFor(kind, s.os[n]))
    && (s.lock.Held? ==> s.lock.kind == kind && OwnUnderway(s, kind, n))
  }

  /** The holder is about to list the services, or to run a command for this one. */
  predicate MustSucceed(s: State, n: string) {
    s.lock.Held? && match s.lock.place
      case ListToCheck => true
      case ListToApply => true
      case ListToClear => true
      case Running(commands) => commands != [] && commands[0].service == n
      case _ => false
  }

  lemma OwnMoveKeeps(s: State, kind: Kind, listing: seq<string>, n: string, ok: bool)
    requires OwnOnTheWay(s, kind, listing, n) && s.lock.Held? && (MustSucceed(s, n) ==> ok)
    ensures var t := Step(s, Act(ok, listing));
      && OwnOnTheWay(t, kind, listing, n)
      && (t.lock.Held? ==> Left(t.lock.place, |listing|) < Left(s.lock.place, |listing|))
  {
    match s.lock.place
    case ListToApply =>
      OwnListed(s, listing, n);
    case ListToClear =>
      OwnListed(s, listing, n);
    case Running(commands) =>
      if commands != [] {
        OwnCommand(s, kind, listing, n, ok);
      }
    case _ =>
  }

  lemma OwnListed(s: State, listing: seq<string>, n: string)
    requires (set x | x in listing) == s.os.Keys && n in s.os
    ensures Owned(s.os[n], ApplyAll(listing), n).PointsHere()
    ensures GoalFor(Clear, Owned(s.os[n], ClearAll(listing), n))
    ensures |ApplyAll(listing)| == 5 * |listing| && |ClearAll(listing)| == 2 * |listing|
  {
    assert n in set x | x in listing;
    OwnedReachesGoal(s.os[n], listing, n);
    CommandCount(listing);
  }

  lemma OwnCommand(s: State, kind: Kind, listing: seq<string>, n: string, ok: bool)
    requires OwnOnTheWay(s, kind, listing, n) && s.lock.Held? && (MustSucceed(s, n) ==> ok)
    requires s.lock.place.Running? && s.lock.place.commands != []
    ensures var t := Step(s, Act(ok, listing));
      && OwnOnTheWay(t, kind, listing, n) && t.lock.Held?
      && Left(t.lock.place, |listing|) < Left(s.lock.place, |listing|)
  {
    var t := Step(s, Act(ok, listing));
    assert t.os.Keys == s.os.Keys;
  }

  /** A pass without others acting, in which the listings and the commands for one service succeed. */
  ghost predicate OwnSucceed(s: State, acts: seq<Action>, listing: seq<string>, n: string) {
    forall i | 0 <= i < |acts| ::
      acts[i].Act? && acts[i].listing == listing && (MustSucceed(After(s, acts[..i]), n) ==> acts[i].ok)
  }

  lemma {:induction false} OwnMovesKeep(s: State, kind: Kind, acts: seq<Action>, listing: seq<string>, n: string)
    requires OwnOnTheWay(s, kind, listing, n) && s.lock.Held? && OwnSucceed(s, acts, listing, n)
    ensures var t := After(s, acts);
      && OwnOnTheWay(t, kind, listing, n)
      && (t.lock.Held? ==> Left(t.lock.place, |listing|) + |acts| <= Left(s.lock.place, |listing|))
  {
    if acts != [] {
      var before, last := acts[..|acts| - 1], acts[|acts| - 1];
      assert forall i | 0 <= i < |before| :: before[..i] == acts[..i] && before[i] == acts[i];
      OwnMovesKeep(s, kind, before, listing, n);
      var t := After(s, before);
      if t.lock.Held? {
        assert last == Act(last.ok, listing);
        OwnMoveKeeps(t, kind, listing, n, last.ok);
      }
    }
  }

  /** Failed commands are passed over: when the pass is through, every service whose own commands succeeded
      is at the goal of the pass, whichever commands for other services failed. */
  lemma FailuresStayLocal(s: State, kind: Kind, acts: seq<Action>, listing: seq<string>, n: string)
    requires s.lock.Free? && (kind == Watchdog ==> !s.heldOff)
    requires (set x | x in listing) == s.os.Keys && n in s.os
    requires OwnSucceed(Step(s, Acquire(kind)), acts, listing, n) && |acts| >= 7 * |listing| + 6
    ensures var t := After(Step(s, Acquire(kind)), acts);
      && t.lock.Free? && n in t.os
      && (if kind == Clear then !t.os[n].httpOn && !t.os[n].httpsOn
          else t.os[n] == Service(true, true, true, true))
  {
    OwnMovesKeep(Step(s, Acquire(kind)), kind, acts, listing, n);
  }

  /** A command that fails does nothing: with every command for one service failing, that service keeps its
      settings through any number of passes of every kind. */
  lemma {:induction false} FailedDoNothing(s: State, acts: seq<Action>, n: string)
    requires n in s.os && forall a | a in acts :: !a.Outside?
    requires forall i | 0 <= i < |acts| :: RunsFor(After(s, acts[..i]), n) && acts[i].Act? ==> !acts[i].ok
    ensures var t := After(s, acts); n in t.os && t.os[n] == s.os[n]
  {
    if acts != [] {
      var before, last := acts[..|acts| - 1], acts[|acts| - 1];
      assert last in acts && forall i | 0 <= i < |before| :: before[..i] == acts[..i] && before[i] == acts[i];
      FailedDoNothing(s, before, n);
      FailedDoesNothing(After(s, before), last, n);
    }
  }

  lemma FailedDoesNothing(s: State, a: Action, n: string)
    requires n in s.os && !a.Outside? && (RunsFor(s, n) && a.Act? ==> !a.ok)
    ensures var t := Step(s, a); n in t.os && t.os[n] == s.os[n]
  {
    if a.Act? && s.lock.Held? && s.lock.place.Running? {
      assert s.lock.place.commands != [] && a.ok ==> s.lock.place.commands[0].service != n;
    }
  }

  /** The holder is about to run a command for this service. */
  predicate RunsFor(s: State, n: string) {
    && s.lock.Held? && s.lock.place.Running?
    && s.lock.place.commands != [] && s.lock.place.commands[0].service == n
  }

  lemma AfterMore(s: State, acts: seq<Action>, a: Action)
    ensures After(s, acts + [a]) == Step(After(s, acts), a)
  {
    assert (acts + [a])[..|acts|] == acts;
  }

  lemma Unlisted(s: State, a: Action, b: Action)
    requires a.Act? && !a.ok && b.Act?
    requires s.lock.Held? ==> s.lock.place.ListToCheck? || s.lock.place.ListToApply? || s.lock.place.ListToClear?
    ensures var t := Step(Step(s, a), b); t.os == s.os && t.lock.Free?
  {
    assert ApplyAll([]) == [] && ClearAll([]) == [];
  }

  /** A pass whose listing of the services fails ends there, and nothing has changed. */
  lemma {:induction false} UnlistedEndsPass(s: State, kind: Kind, acts: seq<Action>)
    requires s.lock.Free? && |acts| >= 3 && forall a | a in acts :: a.Act?
    requires !acts[1].ok
    ensures var t := After(Step(s, Acquire(kind)), acts);
      t.os == s.os && t.lock.Free?
  {
    var from := Step(s, Acquire(kind));
    if |acts| == 3 {
      assert acts == [] + [acts[0]] + [acts[1]] + [acts[2]];
      assert acts[0] in acts && acts[1] in acts && acts[2] in acts;
      AfterMore(from, [], acts[0]);
      AfterMore(from, [] + [acts[0]], acts[1]);
      AfterMore(from, [] + [acts[0]] + [acts[1]], acts[2]);
      Unlisted(Step(from, acts[0]), acts[1], acts[2]);
    } else {
      UnlistedEndsPass(s, kind, acts[..|acts| - 1]);
    }
  }

  // ----- standing down -----

  /** The services as the world outside last left them. */
  function LeftByOthers(os: Services, acts: seq<Action>): Services {
    if acts == [] then os
    else
      var last := acts[|acts| - 1];
      if last.Outside? then last.os else LeftByOthers(os, acts[..|acts| - 1])
  }

  lemma HeldOffStep(s: State, a: Action)
    requires s.heldOff && (s.lock.Free? || s.lock == Held(Watchdog, Enter))
    requires a != Acquire(Apply) && a != Acquire(Clear)
    ensures var t := Step(s, a);
      && t.heldOff && (t.lock.Free? || t.lock == Held(Watchdog, Enter))
      && t.os == if a.Outside? then a.os else s.os
  {
    if a.Acquire? {
      assert a.kind == Watchdog;
    }
  }

  /** While held off and until apply or clear takes the lock, the agent changes no setting: after any
      number of watchdog passes, and any changes from outside in between, each service is exactly as it
      was or as others left it. */
  lemma {:induction false} HeldOffLeavesAlone(s: State, acts: seq<Action>)
    requires s.heldOff && (s.lock.Free? || s.lock == Held(Watchdog, Enter))
    requires Acquire(Apply) !in acts && Acquire(Clear) !in acts
    ensures var t := After(s, acts);
      && t.os == LeftByOthers(s.os, acts)
      && t.heldOff && (t.lock.Free? || t.lock == Held(Watchdog, Enter))
  {
    if acts != [] {
      var before, last := acts[..|acts| - 1], acts[|acts| - 1];
      assert last in acts && forall a | a in before :: a in acts;
      HeldOffLeavesAlone(s, before);
      HeldOffStep(After(s, before), last);
    }
  }
}
