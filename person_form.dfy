/**
 * The administrator's add/edit form for a person: the fields it holds,
 * how they are loaded from the person being edited, and the record it
 * submits.
 */
module PersonForm {
  import opened Wrappers
  import opened Persons
  import opened PersonStorage

  /** The four text inputs. */
  datatype Fields = Fields(name: string, imageUrl: string, fallback: string, prayerAudio: string)

  const Empty: Fields := Fields("", "", "", "")

  /** JavaScript's `a || b` on strings: `b` when `a` is empty. */
  function OrElse(a: string, b: string): string {
    if a == "" then b else a
  }

  /** `s.charAt(0)`: the first character, or the empty string. */
  function FirstChar(s: string): (r: string)
    ensures |r| <= 1 && r <= s
    ensures r == "" <==> s == ""
  {
    if s == "" then "" else [s[0]]
  }

  /** The fields shown for the `person` prop: its values, a missing prayer audio as '', or all empty without a prop. */
  function FieldsOf(person: Option<Person>): Fields {
    match person
    case None => Empty
    case Some(p) => Fields(p.name, p.image, p.fallback, if p.prayerAudio.Some? then p.prayerAudio.value else "")
  }

  /** The record `handleSubmit` passes on, with defaults for the empty inputs. */
  function Submitted(f: Fields): (r: NewPerson)
    ensures r.name == f.name
    ensures r.image != "" && (f.imageUrl != "" ==> r.image == f.imageUrl)
    ensures f.fallback != "" ==> r.fallback == f.fallback
    ensures f.fallback == "" ==> |r.fallback| <= 1 && r.fallback <= f.name
    ensures r.fallback == "" <==> f.fallback == "" && f.name == ""
    ensures r.prayerAudio != Some("")
    ensures r.prayerAudio.None? <==> f.prayerAudio == ""
  {
    NewPerson(
      f.name,
      OrElse(f.imageUrl, PlaceholderImage),
      OrElse(f.fallback, FirstChar(f.name)),
      if f.prayerAudio == "" then None else Some(f.prayerAudio))
  }

  /** Submitting the fields loaded from a complete record gives that record back, without its id. */
  lemma LoadSubmit(p: Person)
    requires p.image != "" && p.fallback != "" && p.prayerAudio != Some("")
    ensures Submitted(FieldsOf(Some(p))) == NewPerson(p.name, p.image, p.fallback, p.prayerAudio)
  {
  }

  /** Editing a submitted record and submitting it unchanged writes the same values again. */
  lemma ResubmitUnchanged(f: Fields, id: string)
    ensures var n := Submitted(f);
      Submitted(FieldsOf(Some(Person(id, n.name, n.image, n.fallback, n.prayerAudio)))) == n
  {
    var n := Submitted(f);
    if f.fallback == "" && f.name == "" {
      assert n.fallback == "";
    }
  }

  /** The form component's state; `person` is the prop it was last rendered with. */
  class PersonFormState {
    var person: Option<Person>
    var name: string
    var imageUrl: string
    var fallback: string
    var prayerAudio: string

    function Current(): Fields
      reads this
    {
      Fields(name, imageUrl, fallback, prayerAudio)
    }

    /** The initial `useState` values agree with what the sync effect loads. */
    constructor (person: Option<Person>)
      ensures this.person == person && Current() == FieldsOf(person)
    {
      this.person := person;
      match person {
        case None =>
          name, imageUrl, fallback, prayerAudio := "", "", "", "";
        case Some(p) =>
          name, imageUrl, fallback := p.name, p.image, p.fallback;
          prayerAudio := if p.prayerAudio.Some? then p.prayerAudio.value else "";
      }
    }

    /** The effect run when the `person` prop changes. */
    method SyncFromProp(person: Option<Person>)
      modifies this
      ensures this.person == person && Current() == FieldsOf(person)
    {
      this.person := person;
      if person.Some? {
        var p := person.value;
        name, imageUrl, fallback := p.name, p.image, p.fallback;
        prayerAudio := if p.prayerAudio.Some? then p.prayerAudio.value else "";
      } else {
        name, imageUrl, fallback, prayerAudio := "", "", "", "";
      }
    }

    /** Typing into the inputs. */
    method Edit(f: Fields)
      modifies this
      ensures Current() == f && person == old(person)
    {
      name, imageUrl, fallback, prayerAudio := f.name, f.imageUrl, f.fallback, f.prayerAudio;
    }

    /** `handleSubmit`: the record passed to `onSubmit`; in add mode the inputs are then cleared. */
    method Submit() returns (submitted: NewPerson)
      modifies this
      ensures submitted == Submitted(old(Current()))
      ensures person == old(person)
      ensures person.None? ==> Current() == Empty
      ensures person.Some? ==> Current() == old(Current())
    {
      var image := if imageUrl == "" then PlaceholderImage else imageUrl;
      var fb := if fallback == "" then FirstChar(name) else fallback;
      var audio := if prayerAudio == "" then None else Some(prayerAudio);
      submitted := NewPerson(name, image, fb, audio);
      if person.None? {
        name, imageUrl, fallback, prayerAudio := "", "", "", "";
      }
    }
  }
}
