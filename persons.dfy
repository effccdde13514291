/**
 * src/data/persons.ts: the built-in list of remembered persons, merged
 * with the records an administrator stored in the browser, and the
 * lookup by id.
 */
module Persons {
  import opened Wrappers

  datatype Person = Person(id: string, name: string, image: string, fallback: string, prayerAudio: Option<string>)

  /**
   * The `custom_persons` storage entry: missing (or empty), holding text
   * that `JSON.parse` rejects, or holding a list of records.
   */
  datatype StorageSlot = Missing | Corrupt | Records(persons: seq<Person>)

  const PlaceholderImage: string := "https://newoaks.s3.us-west-1.amazonaws.com/AutoDev/77020/3db4255c-464e-451f-a702-f7d8eb7fb1a5.png"

  /** The built-in `persons` list, in source order. */
  const StaticPersons: seq<Person> := [
    Person("khaled-ibrahim", "خالد ابراهيم شقا", "/images/khakhalledd.png", "أ", Some("/audio/doaa.mp3")),
    Person("abdelhadi-ashiri", "الحاج/ عبد الهادي عشيرى محمد", PlaceholderImage, "ع", None),
    Person("mohammed-mamdouh", "الحاج/ محمد ممدوح مصطفي أمين صالح عرفة", PlaceholderImage, "م", None),
    Person("ferdaws", "الحاجة/ فردوس الشيخ الطيب", PlaceholderImage, "ف", None),
    Person("hasan-abdelmoneim", "الحسن عبد المنعم رجب", PlaceholderImage, "ح", None),
    Person("ismail-haniyeh", "الشهيد بإذن الله/ إسماعيل هنية", PlaceholderImage, "إ", None),
    Person("saed-abdelazeem", "الشيخ/ سعيد عبد العظيم", PlaceholderImage, "س", None),
    Person("mahmoud-khalil-alhussary", "الشيخ/ محمود خليل الحصري",
      "https://newoaks.s3.us-west-1.amazonaws.com/NewOaks/5500/9bbfa26c-6270-40c4-a1ae-3ad8aca63d66.jpeg", "م", None)
  ]

  /** `getAllPersons`: the built-in list, then the stored records; unreadable storage adds nothing. */
  function GetAllPersons(slot: StorageSlot): (all: seq<Person>)
    ensures |all| >= |StaticPersons| && all[..|StaticPersons|] == StaticPersons
    ensures slot.Records? ==> all[|StaticPersons|..] == slot.persons
    ensures !slot.Records? ==> all == StaticPersons
  {
    match slot
    case Missing => StaticPersons
    case Corrupt => StaticPersons
    case Records(custom) => StaticPersons + custom
  }

  /** The position of the first person in list order with that id. */
  function FirstIndexWithId(persons: seq<Person>, id: string): (r: Option<nat>)
    ensures r.Some? ==> r.value < |persons| && persons[r.value].id == id
    ensures r.Some? ==> forall k :: 0 <= k < r.value ==> persons[k].id != id
    ensures r.None? <==> forall i :: 0 <= i < |persons| ==> persons[i].id != id
  {
    if persons == [] then None
    else if persons[0].id == id then Some(0)
    else
      match FirstIndexWithId(persons[1..], id)
      case None => None
      case Some(k) => Some(k + 1)
  }

  /** `find` by id. */
  function FindById(persons: seq<Person>, id: string): Option<Person> {
    match FirstIndexWithId(persons, id)
    case None => None
    case Some(i) => Some(persons[i])
  }

  /** `getPersonById`: the first person of the merged list with that id. */
  function GetPersonById(slot: StorageSlot, id: string): (r: Option<Person>)
    ensures r.Some? ==> r.value.id == id && r.value in GetAllPersons(slot)
    ensures r.None? <==> forall p :: p in GetAllPersons(slot) ==> p.id != id
  {
    FindById(GetAllPersons(slot), id)
  }

  /** The first match in a list is also the first match once more persons are appended. */
  lemma {:induction false} FindByIdPrefix(persons: seq<Person>, more: seq<Person>, id: string)
    requires FindById(persons, id).Some?
    ensures FindById(persons + more, id) == FindById(persons, id)
  {
    if persons[0].id != id {
      assert (persons + more)[1..] == persons[1..] + more;
      FindByIdPrefix(persons[1..], more, id);
    }
  }

  /** A built-in person shadows any stored record with the same id. */
  lemma StaticShadowsStored(slot: StorageSlot, id: string)
    requires FindById(StaticPersons, id).Some?
    ensures GetPersonById(slot, id) == FindById(StaticPersons, id)
  {
    if slot.Records? {
      FindByIdPrefix(StaticPersons, slot.persons, id);
    }
  }

  /** An id that no built-in person has is looked up among the stored records alone. */
  lemma {:induction false} FindByIdSuffix(persons: seq<Person>, more: seq<Person>, id: string)
    requires FindById(persons, id).None?
    ensures FindById(persons + more, id) == FindById(more, id)
  {
    if persons != [] {
      assert (persons + more)[1..] == persons[1..] + more;
      FindByIdSuffix(persons[1..], more, id);
    } else {
      assert persons + more == more;
    }
  }

  lemma StoredFoundWhenNotBuiltIn(slot: StorageSlot, id: string)
    requires FindById(StaticPersons, id).None? && slot.Records?
    ensures GetPersonById(slot, id) == FindById(slot.persons, id)
  {
    FindByIdSuffix(StaticPersons, slot.persons, id);
  }
}
