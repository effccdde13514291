/**
 * src/lib/personStorage.ts: the administrator's own list of persons, kept
 * under the `custom_persons` storage key, and the password flag kept
 * under `admin_authenticated`.
 */
module PersonStorage {
  import opened Wrappers
  import opened Text
  import opened Persons

  const StorageKey: string := "custom_persons"
  const AuthKey: string := "admin_authenticated"
  const AdminPassword: string := "ahmed123"

  /** `getCustomPersons`: the stored list, or the empty list when the entry is missing or unreadable. */
  function GetCustomPersons(slot: StorageSlot): (persons: seq<Person>)
    ensures slot.Records? ==> persons == slot.persons
    ensures !slot.Records? ==> persons == []
  {
    if slot.Records? then slot.persons else []
  }

  /** The merged list of src/data/persons.ts is the built-in list followed by what `getCustomPersons` reads. */
  lemma AllPersonsAreStaticThenCustom(slot: StorageSlot)
    ensures GetAllPersons(slot) == StaticPersons + GetCustomPersons(slot)
  {
    if !slot.Records? {
      assert StaticPersons + [] == StaticPersons;
    }
  }

  /** Characters that survive `replace(/[^\w\u0600-\u06FF-]/g, '')`: ASCII letters, digits, '_', the Arabic block and '-'. */
  predicate IsSlugChar(c: char) {
    ('a' <= c <= 'z') || ('A' <= c <= 'Z') || ('0' <= c <= '9') || c == '_'
    || ('\U{0600}' <= c <= '\U{06FF}') || c == '-'
  }

  /** `replace(/\s+/g, '-')`: every maximal run of white space becomes one '-'. */
  function DashSpaceRuns(s: string): (r: string)
    ensures forall i :: 0 <= i < |r| ==> !IsJsSpace(r[i])
    ensures |r| <= |s|
    decreases |s|
  {
    if s == [] then []
    else if IsJsSpace(s[0]) then ['-'] + DashSpaceRuns(TrimStart(s[1..]))
    else [s[0]] + DashSpaceRuns(s[1..])
  }

  /** `replace(/[^\w\u0600-\u06FF-]/g, '')`. */
  function KeepSlugChars(s: string): (r: string)
    ensures forall i :: 0 <= i < |r| ==> IsSlugChar(r[i])
    ensures |r| <= |s|
  {
    if s == [] then []
    else if IsSlugChar(s[0]) then [s[0]] + KeepSlugChars(s[1..])
    else KeepSlugChars(s[1..])
  }

  /** The id `addPerson` derives from a name. */
  function Slug(name: string): string {
    KeepSlugChars(DashSpaceRuns(ToLowerCase(name)))
  }

  predicate NoUpperAscii(s: string) {
    forall i :: 0 <= i < |s| ==> !('A' <= s[i] <= 'Z')
  }

  lemma NoUpperDrop(s: string, k: nat)
    requires NoUpperAscii(s) && k <= |s|
    ensures NoUpperAscii(s[k..])
  {
    assert forall i :: 0 <= i < |s| - k ==> s[k..][i] == s[k + i];
  }

  lemma TrimStartSuffix(s: string)
    ensures TrimStart(s) == s[|s| - |TrimStart(s)|..]
  {
    TrimStartSplits(s);
  }

  lemma {:induction false} DashSpaceRunsNoUpper(s: string)
    requires NoUpperAscii(s)
    ensures NoUpperAscii(DashSpaceRuns(s))
    decreases |s|
  {
    if s != [] {
      if IsJsSpace(s[0]) {
        var u := s[1..];
        var t := TrimStart(u);
        TrimStartSuffix(u);
        NoUpperDrop(s, 1 + |u| - |t|);
        assert s[1 + |u| - |t|..] == t;
        DashSpaceRunsNoUpper(t);
      } else {
        NoUpperDrop(s, 1);
        DashSpaceRunsNoUpper(s[1..]);
      }
    }
  }

  lemma {:induction false} KeepSlugCharsNoUpper(s: string)
    requires NoUpperAscii(s)
    ensures NoUpperAscii(KeepSlugChars(s))
  {
    if s != [] {
      KeepSlugCharsNoUpper(s[1..]);
    }
  }

  /** An id contains only the kept characters, no white space and no capital ASCII letter. */
  lemma SlugChars(name: string)
    ensures forall i :: 0 <= i < |Slug(name)| ==> IsSlugChar(Slug(name)[i]) && !IsJsSpace(Slug(name)[i])
    ensures NoUpperAscii(Slug(name))
  {
    LowerCaseNoUpper(name);
    DashSpaceRunsNoUpper(ToLowerCase(name));
    KeepSlugCharsNoUpper(DashSpaceRuns(ToLowerCase(name)));
  }

  lemma {:induction false} DashSpaceRunsFixed(s: string)
    requires forall i :: 0 <= i < |s| ==> !IsJsSpace(s[i])
    ensures DashSpaceRuns(s) == s
  {
    if s != [] {
      DashSpaceRunsFixed(s[1..]);
      assert s == [s[0]] + s[1..];
    }
  }

  lemma {:induction false} KeepSlugCharsFixed(s: string)
    requires forall i :: 0 <= i < |s| ==> IsSlugChar(s[i])
    ensures KeepSlugChars(s) == s
  {
    if s != [] {
      KeepSlugCharsFixed(s[1..]);
      assert s == [s[0]] + s[1..];
    }
  }

  /** Deriving an id from an id changes nothing. */
  lemma SlugIdempotent(name: string)
    ensures Slug(Slug(name)) == Slug(name)
  {
    var id := Slug(name);
    SlugChars(name);
    LowerCaseFixed(id);
    DashSpaceRunsFixed(id);
    KeepSlugCharsFixed(id);
  }

  /** The fields `addPerson` receives: a person without an id. */
  datatype NewPerson = NewPerson(name: string, image: string, fallback: string, prayerAudio: Option<string>)

  /** `{ ...person, id }`. */
  function WithId(person: NewPerson, id: string): (p: Person)
    ensures p.id == id && p.name == person.name && p.image == person.image
    ensures p.fallback == person.fallback && p.prayerAudio == person.prayerAudio
  {
    Person(id, person.name, person.image, person.fallback, person.prayerAudio)
  }

  /** After an add, a lookup by the new id finds a record with that id, the new one unless an older one has it. */
  lemma AddedIsFound(persons: seq<Person>, person: NewPerson)
    ensures var id := Slug(person.name); var r := FirstIndexWithId(persons + [WithId(person, id)], id);
      r.Some? && (r.value == |persons| <==> FirstIndexWithId(persons, id).None?)
  {
    var id := Slug(person.name);
    var all := persons + [WithId(person, id)];
    assert all[|persons|].id == id;
    var r := FirstIndexWithId(all, id);
    if FirstIndexWithId(persons, id).Some? {
      assert all[FirstIndexWithId(persons, id).value] == persons[FirstIndexWithId(persons, id).value];
    }
  }

  /** Adding does not look for an existing id: a second person with a name of the same slug gets the same id. */
  lemma AddCanDuplicateId(persons: seq<Person>, person: NewPerson, i: nat)
    requires i < |persons| && persons[i].id == Slug(person.name)
    ensures var all := persons + [WithId(person, Slug(person.name))];
      all[i].id == all[|persons|].id && i != |persons|
  {
  }

  lemma LowerExamples()
    ensures ToLowerCase("A  b") == "a  b" && ToLowerCase("a b!") == "a b!"
  {
    LowerCaseFixed("  b");
    assert ToLowerCase("A  b") == "a" + ToLowerCase("  b");
    LowerCaseFixed("a b!");
  }

  /** Case and white-space runs do not distinguish names. */
  lemma SlugExample()
    ensures Slug("A  b") == "a-b"
    ensures Slug("a b!") == "a-b"
  {
    LowerExamples();
    assert TrimStart(" b") == "b";
    assert DashSpaceRuns("b") == "b";
    assert DashSpaceRuns("a  b") == "a-b";
    var other := "a b!";
    assert TrimStart("b!") == "b!";
    assert DashSpaceRuns("b!") == "b!";
    assert DashSpaceRuns(other) == "a-b!";
    assert KeepSlugChars("!") == "";
    assert KeepSlugChars("a-b!") == "a-b";
    KeepSlugCharsFixed("a-b");
  }

  /** The two non-ASCII letters whose lower case is an ASCII letter keep that letter in the id. */
  lemma NonAsciiCapitals()
    ensures Slug("\U{212A}") == "k"
    ensures Slug("\U{0130}") == "i"
  {
    assert ToLowerCase("\U{212A}") == "k";
    assert DashSpaceRuns("k") == "k";
    var dotted := "i\U{0307}";
    assert ToLowerCase("\U{0130}") == dotted;
    assert DashSpaceRuns(dotted) == dotted;
    assert KeepSlugChars(dotted[1..]) == "";
  }

  /** A `Partial<Person>`: the fields present in an update; `prayerAudio` may be present and set to undefined. */
  datatype PersonUpdate = PersonUpdate(
    id: Option<string>, name: Option<string>, image: Option<string>,
    fallback: Option<string>, prayerAudio: Option<Option<string>>)

  function Pick<T>(update: Option<T>, current: T): T {
    if update.Some? then update.value else current
  }

  /** `{ ...current, ...updates, id }`. */
  function Merged(current: Person, updates: PersonUpdate, id: string): (p: Person)
    ensures p.id == id
    ensures p.name == (if updates.name.Some? then updates.name.value else current.name)
    ensures p.image == (if updates.image.Some? then updates.image.value else current.image)
    ensures p.fallback == (if updates.fallback.Some? then updates.fallback.value else current.fallback)
    ensures p.prayerAudio == (if updates.prayerAudio.Some? then updates.prayerAudio.value else current.prayerAudio)
  {
    Person(id, Pick(updates.name, current.name), Pick(updates.image, current.image),
      Pick(updates.fallback, current.fallback), Pick(updates.prayerAudio, current.prayerAudio))
  }

  /** `persons.filter((p) => p.id !== id)`. */
  function WithoutId(persons: seq<Person>, id: string): (r: seq<Person>)
    ensures |r| <= |persons|
    ensures forall i :: 0 <= i < |r| ==> r[i].id != id && r[i] in persons
    ensures |r| == |persons| <==> forall i :: 0 <= i < |persons| ==> persons[i].id != id
  {
    if persons == [] then []
    else
      var rest := WithoutId(persons[1..], id);
      if persons[0].id == id then rest else [persons[0]] + rest
  }

  /** Filtering keeps every record with another id. */
  lemma {:induction false} WithoutIdKeeps(persons: seq<Person>, id: string, p: Person)
    requires p in persons && p.id != id
    ensures p in WithoutId(persons, id)
  {
    if persons[0] != p {
      WithoutIdKeeps(persons[1..], id, p);
    }
  }

  /** The browser storage entries this module owns. */
  class PersonStore {
    /** The `custom_persons` entry. */
    var slot: StorageSlot
    /** The `admin_authenticated` entry. */
    var authFlag: Option<string>

    constructor (slot: StorageSlot, authFlag: Option<string>)
      ensures this.slot == slot && this.authFlag == authFlag
    {
      this.slot := slot;
      this.authFlag := authFlag;
    }

    /** `addPerson`: the record gets the id derived from its name and is appended; the list is written back. */
    method AddPerson(person: NewPerson) returns (added: Person)
      modifies this
      ensures added == WithId(person, Slug(person.name))
      ensures slot == Records(GetCustomPersons(old(slot)) + [added])
      ensures authFlag == old(authFlag)
    {
      var persons := GetCustomPersons(slot);
      var id := Slug(person.name);
      added := WithId(person, id);
      persons := persons + [added];
      slot := Records(persons);
    }

    /**
     * `updatePerson`: the first record with the id gets the updates merged
     * over it, keeping its id; nothing is written when no record has the id.
     */
    method UpdatePerson(id: string, updates: PersonUpdate) returns (ok: bool)
      modifies this
      ensures var persons := GetCustomPersons(old(slot)); var index := FirstIndexWithId(persons, id);
        && (ok <==> index.Some?)
        && (!ok ==> slot == old(slot))
        && (ok ==> slot == Records(persons[index.value := Merged(persons[index.value], updates, id)]))
      ensures authFlag == old(authFlag)
    {
      var persons := GetCustomPersons(slot);
      var index := FirstIndexWithId(persons, id);
      if index.None? {
        return false;
      }
      persons := persons[index.value := Merged(persons[index.value], updates, id)];
      slot := Records(persons);
      return true;
    }

    /** `deletePerson`: every record with the id is removed; nothing is written when none has it. */
    method DeletePerson(id: string) returns (ok: bool)
      modifies this
      ensures var persons := GetCustomPersons(old(slot));
        && (ok <==> exists i :: 0 <= i < |persons| && persons[i].id == id)
        && (!ok ==> slot == old(slot))
        && (ok ==> slot == Records(WithoutId(persons, id)))
      ensures authFlag == old(authFlag)
    {
      var persons := GetCustomPersons(slot);
      var filtered := WithoutId(persons, id);
      if |filtered| == |persons| {
        return false;
      }
      slot := Records(filtered);
      return true;
    }

    /** `personExists`: some stored record has the id; unreadable storage holds none. */
    function PersonExists(id: string): (found: bool)
      reads this
      ensures found <==> slot.Records? && exists i :: 0 <= i < |slot.persons| && slot.persons[i].id == id
    {
      FirstIndexWithId(GetCustomPersons(slot), id).Some?
    }

    /** `authenticate`: only the configured password sets the flag. */
    method Authenticate(password: string) returns (ok: bool)
      modifies this
      ensures ok <==> password == AdminPassword
      ensures ok ==> authFlag == Some("true") && IsAuthenticated()
      ensures !ok ==> authFlag == old(authFlag)
      ensures slot == old(slot)
    {
      if password == AdminPassword {
        authFlag := Some("true");
        return true;
      }
      return false;
    }

    /** `isAuthenticated`: the flag holds exactly the text "true"; a missing flag or any other text is not enough. */
    function IsAuthenticated(): (ok: bool)
      reads this
      ensures ok <==> authFlag.Some? && authFlag.value == "true"
    {
      authFlag == Some("true")
    }

    /** `logout`: the flag is removed. */
    method Logout()
      modifies this
      ensures authFlag == None && !IsAuthenticated()
      ensures slot == old(slot)
    {
      authFlag := None;
    }
  }
}
