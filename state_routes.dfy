/** `PATCH /api/states/:id`: the administrator edits a state's credit rules. */
module StateRoutes {
  import opened Wrappers
  import opened Http
  import opened Models

  /** The request body; `creditDefinition` is `None` when absent or `null`. */
  datatype StatePatch = StatePatch(
    creditDefinition: Option<string>,
    hoursPerCredit: BodyNumber,
    minCreditsRequired: BodyNumber)

  /**
   * A numeric field assigned from the body: absent keeps the current value, a
   * number replaces it whatever its range, and `null` or a non-numeric value
   * makes the document fail validation on save (`None`).
   */
  function Assigned(current: real, b: BodyNumber): (r: Option<real>)
    ensures b.Undefined? ==> r == Some(current)
    ensures b.Num? ==> r == Some(b.v)
    ensures r.None? <==> b.Null? || b.NotNumeric?
  {
    match b
    case Undefined => Some(current)
    case Num(v) => Some(v)
    case Null => None
    case NotNumeric => None
  }

  /** The rules after the patch, or `None` when `state.save()` rejects the document. */
  function Patched(rules: StateRules, p: StatePatch): (r: Option<StateRules>)
    ensures r.None? <==>
      Assigned(rules.hoursPerCredit, p.hoursPerCredit).None? || Assigned(rules.minCreditsRequired, p.minCreditsRequired).None?
    ensures r.Some? ==>
      && r.value.creditDefinition == (if p.creditDefinition.Some? && p.creditDefinition.value != "" then p.creditDefinition.value else rules.creditDefinition)
      && r.value.hoursPerCredit == Assigned(rules.hoursPerCredit, p.hoursPerCredit).value
      && r.value.minCreditsRequired == Assigned(rules.minCreditsRequired, p.minCreditsRequired).value
  {
    var definition := if p.creditDefinition.Some? && p.creditDefinition.value != "" then p.creditDefinition.value else rules.creditDefinition;
    var hours := Assigned(rules.hoursPerCredit, p.hoursPerCredit);
    var minimum := Assigned(rules.minCreditsRequired, p.minCreditsRequired);
    if hours.None? || minimum.None? then None
    else Some(StateRules(definition, hours.value, minimum.value))
  }

  /** An empty body changes nothing. */
  lemma EmptyPatchKeepsRules(rules: StateRules)
    ensures Patched(rules, StatePatch(None, Undefined, Undefined)) == Some(rules)
  {
  }

  /** Applying the same patch twice is applying it once. */
  lemma PatchIdempotent(rules: StateRules, p: StatePatch)
    requires Patched(rules, p).Some?
    ensures Patched(Patched(rules, p).value, p) == Patched(rules, p)
  {
  }

  /** Nothing bounds the new numbers: a zero or negative hours-per-credit is stored as sent. */
  lemma PatchHasNoRangeCheck(rules: StateRules, v: real)
    ensures Patched(rules, StatePatch(None, Num(v), Undefined)) == Some(rules.(hoursPerCredit := v))
  {
  }

  /** The handler: look the state up, assign the allowed fields, save. */
  method PatchState(states: StateCollection, id: Id, p: StatePatch) returns (status: Status)
    modifies Touched(states.Find(id))
    ensures states.Find(id).None? ==> status == NotFound
    ensures status != Ok ==> unchanged(Touched(states.Find(id)))
    ensures status == Ok <==> states.Find(id).Some? && old(Patched(states.Find(id).value.Rules(), p)).Some?
    ensures status == Ok ==>
      var st := states.Find(id).value;
      st.Rules() == old(Patched(st.Rules(), p)).value
  {
    var found := states.Find(id);
    if found.None? {
      return NotFound;
    }
    var state := found.value;
    var patched := Patched(state.Rules(), p);
    if patched.None? {
      // the `required` Number validator or the cast fails on save
      return ServerError;
    }
    if p.creditDefinition.Some? && p.creditDefinition.value != "" {
      state.creditDefinition := p.creditDefinition.value;
    }
    if !p.hoursPerCredit.Undefined? {
      state.hoursPerCredit := p.hoursPerCredit.v;
    }
    if !p.minCreditsRequired.Undefined? {
      state.minCreditsRequired := p.minCreditsRequired.v;
    }
    return Ok;
  }
}
