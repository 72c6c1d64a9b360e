/** Athlete profiles: a name, a position and a score per attribute, built from
    the registration form when the scout saves an athlete. */
module Profiles {
  import opened Taxonomy

  /** Attribute scores of one athlete, keyed by attribute label. */
  type Scores = map<Attribute, int>

  /** One row of the profile table. */
  datatype Profile = Profile(name: string, position: Position, attributes: Scores)

  /** The score a row holds for an attribute, read as 0 when the row has no
      such column (the dashboard's `row.get(a, 0)`). */
  function Value(scores: Scores, a: Attribute): int
  {
    if a in scores then scores[a] else 0
  }

  /** The complete attribute map saved for an athlete: every attribute of the
      universe starts at 0 and the submitted inputs then overwrite it. */
  function CompleteAttributes(inputs: Scores): (full: Scores)
    ensures full.Keys == AllAttributes + inputs.Keys
    ensures forall a :: a in inputs ==> full[a] == inputs[a]
    ensures forall a :: a in AllAttributes && a !in inputs ==> full[a] == 0
  {
    (map a | a in AllAttributes :: 0) + inputs
  }

  /** The profile saved under `name`: it carries the name and position given
      and an entry for every attribute of the universe, equal to the submitted
      value where there is one and to 0 otherwise. */
  function NewProfile(name: string, position: Position, inputs: Scores): (p: Profile)
    ensures p.name == name && p.position == position
    ensures AllAttributes <= p.attributes.Keys
    ensures forall a :: a in AllAttributes ==> p.attributes[a] == Value(inputs, a)
    ensures forall a :: a in p.attributes ==> a in AllAttributes || a in inputs
  {
    Profile(name, position, CompleteAttributes(inputs))
  }

  /** What the registration form submits when no slider is moved: 50 for each
      primary attribute of the position and 30 for every other attribute of the
      universe. The form always submits a value for every attribute. */
  function FormDefaults(position: Position): (inputs: Scores)
    ensures inputs.Keys == AllAttributes
    ensures forall a :: a in PositionAttributes(position) ==> a in inputs && inputs[a] == 50
    ensures forall a :: a in AllAttributes && a !in PositionAttributes(position) ==> inputs[a] == 30
  {
    PositionTableShape(position);
    assert forall a :: a in PositionAttributes(position) ==> a in Elements(PositionAttributes(position));
    map a | a in AllAttributes :: if a in PositionAttributes(position) then 50 else 30
  }

  /** When the inputs cover exactly the universe, as the form's always do, the
      saved attributes are the submitted ones: the default of 0 never survives. */
  lemma FormInputsStoredVerbatim(name: string, position: Position, inputs: Scores)
    requires inputs.Keys == AllAttributes
    ensures NewProfile(name, position, inputs).attributes == inputs
  {
  }

  /** Saving an untouched form stores 50 for the primary attributes and 30 for
      the others; no attribute of the universe is stored as 0. */
  lemma UntouchedFormStored(name: string, position: Position)
    ensures var p := NewProfile(name, position, FormDefaults(position));
      forall a :: a in AllAttributes ==> p.attributes[a] == (if a in PositionAttributes(position) then 50 else 30)
  {
  }

  /** Saving only the primary attributes of the athlete's position leaves every
      other attribute of the universe at 0. */
  lemma PrimaryOnlyDefaultsToZero(name: string, position: Position, inputs: Scores)
    requires inputs.Keys == Elements(PositionAttributes(position))
    ensures var p := NewProfile(name, position, inputs);
      forall a :: a in AllAttributes && a !in PositionAttributes(position) ==> p.attributes[a] == 0
    ensures var p := NewProfile(name, position, inputs);
      forall a :: a in PositionAttributes(position) ==> p.attributes[a] == inputs[a]
  {
  }
}
