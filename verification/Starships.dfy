/**
 The test fixture: the `Starship` record, the `titan` value, one lens per
 stored property (what the key paths `\.commandingOfficer`, `\.registry` and
 `\.isActive` designate), and the three refits the tests assert.

 The tests' trailing closures are bodies of field assignments
 (`$0.registry = "NCC-80102-A"`); such a body is a list of `Assignment`s,
 and `Closure(body)` is the in-place transform it denotes.
 */
module Starships {
  import opened Lenses
  import opened SlashConfig

  datatype Starship = Starship(commandingOfficer: string, registry: string, isActive: bool)

  /** `Starship.titan`, a `static let`: it is only ever copied, never changed. */
  const Titan := Starship("William T. Riker", "NCC-80102", false)

  function CommandingOfficer(): (l: Lens<Starship, string>) {
    Lens((s: Starship) => s.commandingOfficer, (s: Starship, v) => s.(commandingOfficer := v))
  }

  function Registry(): (l: Lens<Starship, string>) {
    Lens((s: Starship) => s.registry, (s: Starship, v) => s.(registry := v))
  }

  function IsActive(): (l: Lens<Starship, bool>) {
    Lens((s: Starship) => s.isActive, (s: Starship, v) => s.(isActive := v))
  }

  /** The three key-path lenses obey the lens laws. */
  lemma FieldLensesLawful()
    ensures Lawful(CommandingOfficer())
    ensures Lawful(Registry())
    ensures Lawful(IsActive())
  {
  }

  /** The three key paths designate three different fields. */
  lemma FieldLensesIndependent()
    ensures Independent(CommandingOfficer(), Registry())
    ensures Independent(CommandingOfficer(), IsActive())
    ensures Independent(Registry(), IsActive())
  {
  }

  /** The setter through each key path changes that one field of the record and
      keeps the other two. */
  lemma SetterChangesOneField(c: Configurable<Starship>, officer: string, registry: string, active: bool)
    ensures Setter(c, CommandingOfficer(), officer)
         == Starship(officer, c.value.registry, c.value.isActive)
    ensures Setter(c, Registry(), registry)
         == Starship(c.value.commandingOfficer, registry, c.value.isActive)
    ensures Setter(c, IsActive(), active)
         == Starship(c.value.commandingOfficer, c.value.registry, active)
  {
  }

  // ----- Closure bodies made of field assignments -----

  /** One statement `$0.<field> = <value>` of a configuration closure. */
  datatype Assignment =
    | AssignOfficer(officer: string)
    | AssignRegistry(registry: string)
    | AssignActive(active: bool)

  /** Performs one assignment on the closure's `inout` copy, through the key path. */
  function Perform(s: Starship, a: Assignment): (r: Starship)
    ensures r.commandingOfficer == (if a.AssignOfficer? then a.officer else s.commandingOfficer)
    ensures r.registry == (if a.AssignRegistry? then a.registry else s.registry)
    ensures r.isActive == (if a.AssignActive? then a.active else s.isActive)
  {
    match a
    case AssignOfficer(v) => CommandingOfficer().put(s, v)
    case AssignRegistry(v) => Registry().put(s, v)
    case AssignActive(v) => IsActive().put(s, v)
  }

  /** Runs a closure body's assignments in order on the copy. */
  function Exec(s: Starship, body: seq<Assignment>): (r: Starship)
    ensures |body| == 0 ==> r == s
    ensures (forall i :: 0 <= i < |body| ==> !body[i].AssignOfficer?) ==> r.commandingOfficer == s.commandingOfficer
    ensures (forall i :: 0 <= i < |body| ==> !body[i].AssignRegistry?) ==> r.registry == s.registry
    ensures (forall i :: 0 <= i < |body| ==> !body[i].AssignActive?) ==> r.isActive == s.isActive
    decreases |body|
  {
    if |body| == 0 then s else Exec(Perform(s, body[0]), body[1..])
  }

  /** The value a field holds after a body ran: the last value assigned to it,
      or the value before the body if the body never assigns it. */
  function LastOfficer(body: seq<Assignment>, before: string): (officer: string)
    decreases |body|
  {
    if |body| == 0 then before
    else if body[|body| - 1].AssignOfficer? then body[|body| - 1].officer
    else LastOfficer(body[..|body| - 1], before)
  }

  function LastRegistry(body: seq<Assignment>, before: string): (registry: string)
    decreases |body|
  {
    if |body| == 0 then before
    else if body[|body| - 1].AssignRegistry? then body[|body| - 1].registry
    else LastRegistry(body[..|body| - 1], before)
  }

  function LastActive(body: seq<Assignment>, before: bool): (active: bool)
    decreases |body|
  {
    if |body| == 0 then before
    else if body[|body| - 1].AssignActive? then body[|body| - 1].active
    else LastActive(body[..|body| - 1], before)
  }

  /** Running a body and then one more assignment is running the longer body. */
  lemma {:induction false} ExecSnoc(s: Starship, body: seq<Assignment>, a: Assignment)
    ensures Exec(s, body + [a]) == Perform(Exec(s, body), a)
    decreases |body|
  {
    if |body| == 0 {
      assert body + [a] == [a];
    } else {
      assert (body + [a])[1..] == body[1..] + [a];
      ExecSnoc(Perform(s, body[0]), body[1..], a);
    }
  }

  /** Transform completeness: after a closure body, every field holds the last
      value the body assigned to it, and every field it never assigns holds the
      value it had before. */
  lemma {:induction false} ExecLastWriteWins(s: Starship, body: seq<Assignment>)
    ensures Exec(s, body)
         == Starship(LastOfficer(body, s.commandingOfficer),
                     LastRegistry(body, s.registry),
                     LastActive(body, s.isActive))
    decreases |body|
  {
    if |body| > 0 {
      var init, last := body[..|body| - 1], body[|body| - 1];
      assert body == init + [last];
      ExecSnoc(s, init, last);
      ExecLastWriteWins(s, init);
    }
  }

  /** The in-place transform a closure body denotes: on every copy it is
      handed, each field ends with the last value the body assigns to it,
      or keeps its value when the body never assigns it. */
  function Closure(body: seq<Assignment>): (transform: Starship -> Starship)
    ensures forall s :: (transform(s)
      == Starship(LastOfficer(body, s.commandingOfficer),
                  LastRegistry(body, s.registry),
                  LastActive(body, s.isActive)))
  {
    assert forall s :: (Exec(s, body)
      == Starship(LastOfficer(body, s.commandingOfficer),
                  LastRegistry(body, s.registry),
                  LastActive(body, s.isActive))) by {
      forall s
        ensures Exec(s, body)
             == Starship(LastOfficer(body, s.commandingOfficer),
                         LastRegistry(body, s.registry),
                         LastActive(body, s.isActive))
      {
        ExecLastWriteWins(s, body);
      }
    }
    s => Exec(s, body)
  }

  /** The key-path setter link for one assignment. */
  function StepOf(a: Assignment): (step: Starship -> Starship)
    ensures forall s :: step(s) == Perform(s, a)
  {
    match a
    case AssignOfficer(v) => SetterStep(CommandingOfficer(), v)
    case AssignRegistry(v) => SetterStep(Registry(), v)
    case AssignActive(v) => SetterStep(IsActive(), v)
  }

  /** The chain of setter links `/ .field(value)` for a closure body, in order. */
  function Steps(body: seq<Assignment>): (steps: seq<Starship -> Starship>)
    ensures |steps| == |body|
    ensures forall i :: 0 <= i < |body| ==> steps[i] == StepOf(body[i])
    decreases |body|
  {
    if |body| == 0 then [] else [StepOf(body[0])] + Steps(body[1..])
  }

  /** Running a closure body is running the chain of its setter links. */
  lemma {:induction false} ExecIsSetterChain(s: Starship, body: seq<Assignment>)
    ensures Exec(s, body) == Run(s, Steps(body))
    decreases |body|
  {
    if |body| > 0 {
      var steps := Steps(body);
      assert steps[1..] == Steps(body[1..]);
      assert steps[0](s) == Perform(s, body[0]);
      assert Run(s, steps) == Run(Perform(s, body[0]), steps[1..]);
      ExecIsSetterChain(Perform(s, body[0]), body[1..]);
    }
  }

  /** One `configure` call whose closure assigns fields is the chain of
      setters on the same fields with the same values, in the same order. */
  lemma ClosureIsSetterChain(s: Starship, body: seq<Assignment>)
    ensures Configure(Wrap(s), Closure(body)) == Run(s, Steps(body))
  {
    ExecIsSetterChain(s, body);
    assert Closure(body)(s) == Exec(s, body);
  }

  // ----- The three refits of the tests -----

  /** `{ $0.appending("-A") }` */
  function AppendA(registry: string): (r: string)
    ensures |r| == |registry| + 2
    ensures r[..|registry|] == registry && r[|registry|..] == "-A"
  {
    registry + "-A"
  }

  /** `titan/ .commandingOfficer("Liam Shaw")/ .registry({ $0.appending("-A") })/ .isActive(true)` */
  function RefitViaDynamicMemberLookup(): (r: Starship)
    ensures r.registry == "NCC-80102-A"
    ensures r.commandingOfficer == "Liam Shaw"
    ensures r.isActive == true
    ensures r != Titan
  {
    var officered := Setter(Wrap(Titan), CommandingOfficer(), "Liam Shaw");
    var registered := Mapper(Wrap(officered), Registry(), AppendA);
    Setter(Wrap(registered), IsActive(), true)
  }

  /** In that chain the mapper is handed the registry before the write,
      "NCC-80102", and writes back "NCC-80102-A". */
  lemma MapperSeesOriginalRegistry()
    ensures Registry().get(Setter(Wrap(Titan), CommandingOfficer(), "Liam Shaw")) == "NCC-80102"
    ensures Mapper(Wrap(Setter(Wrap(Titan), CommandingOfficer(), "Liam Shaw")), Registry(), AppendA).registry
         == "NCC-80102-A"
    ensures Run(Titan, [SetterStep(CommandingOfficer(), "Liam Shaw"),
                        MapperStep(Registry(), AppendA),
                        SetterStep(IsActive(), true)])
         == RefitViaDynamicMemberLookup()
  {
    var steps := [SetterStep(CommandingOfficer(), "Liam Shaw"),
                  MapperStep(Registry(), AppendA),
                  SetterStep(IsActive(), true)];
    assert steps == [steps[0], steps[1]] + [steps[2]];
    assert [steps[0], steps[1]] == [steps[0]] + [steps[1]];
    RunSnoc(Titan, [steps[0], steps[1]], steps[2]);
    RunSnoc(Titan, [steps[0]], steps[1]);
    RunSnoc(Titan, [], steps[0]);
    assert [] + [steps[0]] == [steps[0]];
  }

  /** The body of the closure in the closure-configuration test. */
  const RefitBody: seq<Assignment> :=
    [AssignOfficer("Liam Shaw"), AssignRegistry("NCC-80102-A"), AssignActive(true)]

  /** `titan/ { $0.commandingOfficer = ...; $0.registry = ...; $0.isActive = true }` */
  function RefitViaClosure(): (r: Starship)
    ensures r.registry == "NCC-80102-A"
    ensures r.commandingOfficer == "Liam Shaw"
    ensures r.isActive == true
    ensures r == RefitViaDynamicMemberLookup()
    ensures r != Titan
  {
    assert LastOfficer(RefitBody, Titan.commandingOfficer) == "Liam Shaw";
    assert LastRegistry(RefitBody, Titan.registry) == "NCC-80102-A";
    assert LastActive(RefitBody, Titan.isActive);
    CallAsFunction(Wrap(Titan), Closure(RefitBody))
  }

  /** `titan/ .commandingOfficer("Liam Shaw")/ .configure({ $0.isActive = year >= 2396 })/ .registry("NCC-80102-A")` */
  function RefitMixingTechniques(year: int): (r: Starship)
    ensures r.registry == "NCC-80102-A"
    ensures r.commandingOfficer == "Liam Shaw"
    ensures r.isActive <==> year >= 2396
    ensures year == 2397 ==> r == RefitViaDynamicMemberLookup()
    ensures r != Titan
  {
    var officered := Setter(Wrap(Titan), CommandingOfficer(), "Liam Shaw");
    var body := [AssignActive(year >= 2396)];
    assert LastOfficer(body, officered.commandingOfficer) == officered.commandingOfficer;
    assert LastRegistry(body, officered.registry) == officered.registry;
    assert LastActive(body, officered.isActive) == (year >= 2396);
    var activated := Configure(Wrap(officered), Closure(body));
    Setter(Wrap(activated), Registry(), "NCC-80102-A")
  }
}
