/** The `ContactList` class of the `Contacts` playground: the same contact
    struct and checks as the package, an in-memory array with no file, and
    `changeContact(by:to:)`, which copies the editable fields into the first
    contact with a given id. */
module ContactListPlayground {
  import opened Wrappers
  import opened Seqs
  import opened Contacts

  /** `contact` with the name, phone, email and work of `newContact`; its own
      id is kept. */
  function WithFieldsOf(contact: Contact, newContact: Contact): Contact {
    contact.(name := newContact.name, phone := newContact.phone,
             email := newContact.email, work := newContact.work)
  }

  /** The list after `changeContact(by: id, to: newContact)`. */
  function Changed(s: seq<Contact>, id: Uuid, newContact: Contact): seq<Contact> {
    match FirstIndex(s, HasId(id))
    case None => s
    case Some(i) => s[i := WithFieldsOf(s[i], newContact)]
  }

  class ContactList {
    var contacts: seq<Contact>

    /** Both `init(contacts:)` overloads, the variadic one and the array one. */
    constructor (contacts: seq<Contact>)
      ensures this.contacts == contacts
    {
      this.contacts := contacts;
    }

    function Size(): nat
      reads this
    {
      |contacts|
    }

    /** `add(_:)`: append at the end. */
    method Add(contact: Contact)
      modifies this
      ensures contacts == old(contacts) + [contact]
      ensures Size() == old(Size()) + 1
    {
      contacts := contacts + [contact];
    }

    /** `contacts(where:)`: the matching contacts, in list order. */
    method ContactsWhere(matches: Contact -> bool) returns (result: seq<Contact>)
      ensures result == Filter(contacts, matches)
    {
      result := [];
      for i := 0 to |contacts|
        invariant result == Filter(contacts[..i], matches)
      {
        assert contacts[..i + 1][..i] == contacts[..i];
        if matches(contacts[i]) {
          result := result + [contacts[i]];
        }
      }
      assert contacts[..|contacts|] == contacts;
    }

    /** `contact(withId:)`: the first contact with that id, or `nil`. */
    function ContactWithId(id: Uuid): (r: Option<Contact>)
      reads this
      ensures r.None? <==> forall i :: 0 <= i < |contacts| ==> contacts[i].id != id
      ensures r.Some? ==> exists i :: 0 <= i < |contacts| && contacts[i] == r.value && r.value.id == id &&
                                      forall j :: 0 <= j < i ==> contacts[j].id != id
    {
      FirstMatch(contacts, HasId(id))
    }

    /** `changeContact(by:to:)`: assign name, phone, email and work of
        `newContact` to the first contact with id `id`, one field at a time. */
    method ChangeContact(id: Uuid, newContact: Contact)
      modifies this
      ensures contacts == Changed(old(contacts), id, newContact)
    {
      var index := FirstIndex(contacts, HasId(id));
      if index.Some? {
        var i := index.value;
        contacts := contacts[i := contacts[i].(name := newContact.name)];
        contacts := contacts[i := contacts[i].(phone := newContact.phone)];
        contacts := contacts[i := contacts[i].(email := newContact.email)];
        contacts := contacts[i := contacts[i].(work := newContact.work)];
      }
    }

    /** `remove(_:)`: drop every contact equal to the argument. */
    method Remove(contact: Contact)
      modifies this
      ensures contacts == RemoveAll(old(contacts), contact)
    {
      contacts := RemoveAll(contacts, contact);
    }
  }

  /** `changeContact` keeps the length and every id, gives the first contact
      with the id the new editable fields, and leaves every other contact alone;
      with an unknown id nothing changes. */
  lemma ChangedSpec(s: seq<Contact>, id: Uuid, newContact: Contact)
    ensures |Changed(s, id, newContact)| == |s|
    ensures forall i :: 0 <= i < |s| ==> Changed(s, id, newContact)[i].id == s[i].id
    ensures (forall i :: 0 <= i < |s| ==> s[i].id != id) ==> Changed(s, id, newContact) == s
    ensures forall i :: 0 <= i < |s| && s[i].id == id && (forall j :: 0 <= j < i ==> s[j].id != id) ==>
              Changed(s, id, newContact) == s[i := WithFieldsOf(s[i], newContact)]
  {
    var k := FirstIndex(s, HasId(id));
    forall i | 0 <= i < |s| && s[i].id == id && (forall j :: 0 <= j < i ==> s[j].id != id)
      ensures Changed(s, id, newContact) == s[i := WithFieldsOf(s[i], newContact)]
    {
      assert HasId(id)(s[i]);
      assert k.Some?;
    }
  }

  /** After a change by a present id, looking the id up gives a contact with
      that id and the new name, phone, email and work. */
  lemma ChangeThenFind(s: seq<Contact>, id: Uuid, newContact: Contact)
    requires exists i :: 0 <= i < |s| && s[i].id == id
    ensures match FirstMatch(Changed(s, id, newContact), HasId(id))
            case None => false
            case Some(c) => c.id == id && c.name == newContact.name && c.phone == newContact.phone &&
                            c.email == newContact.email && c.work == newContact.work
  {
    var p := HasId(id);
    var k := FirstIndex(s, p);
    var t := Changed(s, id, newContact);
    assert p(t[k.value]);
    var k' := FirstIndex(t, p);
    assert k'.Some?;
    assert forall j :: 0 <= j < k.value ==> t[j] == s[j];
  }

  /** The contacts the playground's script creates pass the validating
      initialiser, so none of its `guard let ... = try?` branches is taken. */
  lemma ScriptContactsAreValid(sergiiId: Uuid, lisaId: Uuid, emmaId: Uuid, newId: Uuid)
    ensures NewContact(sergiiId, "Sergii", "380660989878", Some("df@g.com"), None).Success?
    ensures NewContact(lisaId, "Lisa", "380670989008", None, Some(WorkInfo("Manager", None))).Success?
    ensures NewContact(emmaId, "Emma", "380470444403", Some("hello@gmail.com"),
                       Some(WorkInfo("Translator", None))).Success?
    ensures NewContact(newId, "Sergey", "380660989878", Some("df@g.com"), None).Success?
  {
    assert EmailMatchAt("df@g.com", 2, 4);
    assert EmailMatchAt("hello@gmail.com", 5, 11);
  }

  /** The playground's script: two contacts, add a third, change the first by
      its id, look it up, filter by name, remove the second; then a fresh empty
      list with the first two contacts added one by one. The ids stand for the
      fresh UUIDs. Returns the name found after the change, the first contact
      named "Emma", the size after the remove, and the fresh list's size after
      each of its two additions. */
  method Script(sergiiId: Uuid, lisaId: Uuid, emmaId: Uuid, newId: Uuid)
    returns (changedName: string, firstEmma: Contact, emma: Contact, size: nat, sizeOne: nat, sizeTwo: nat)
    requires sergiiId != lisaId && sergiiId != emmaId && lisaId != emmaId
    ensures changedName == "Sergey"
    ensures firstEmma == emma && emma.id == emmaId
    ensures size == 2
    ensures sizeOne == 1 && sizeTwo == 2
  {
    var sergii := Contact(sergiiId, "Sergii", "380660989878", Some("df@g.com"), None);
    var lisa := Contact(lisaId, "Lisa", "380670989008", None, Some(WorkInfo("Manager", None)));
    emma := Contact(emmaId, "Emma", "380470444403", Some("hello@gmail.com"), Some(WorkInfo("Translator", None)));
    var newContact := Contact(newId, "Sergey", "380660989878", Some("df@g.com"), None);
    changedName, firstEmma, size, sizeOne, sizeTwo := RunScript(sergii, lisa, emma, newContact, "Emma");
  }

  /** The script's steps on any three contacts with distinct ids, where only
      the third carries the name searched for and the replacement's name
      differs from it. */
  method RunScript(first: Contact, second: Contact, third: Contact, newContact: Contact, name: string)
    returns (changedName: string, found: Contact, size: nat, sizeOne: nat, sizeTwo: nat)
    requires first.id != second.id && first.id != third.id && second.id != third.id
    requires second.name != name && newContact.name != name && third.name == name
    ensures changedName == newContact.name
    ensures found == third
    ensures size == 2
    ensures sizeOne == 1 && sizeTwo == 2
  {
    var contacts := new ContactList([first, second]);
    contacts.Add(third);
    contacts.ChangeContact(first.id, newContact);
    var changedFirst := WithFieldsOf(first, newContact);
    ScriptChange(first, second, third, newContact);
    assert contacts.contacts == [changedFirst, second, third];
    var changed := contacts.ContactWithId(first.id);
    changedName := changed.value.name;

    var isNamed := (c: Contact) => c.name == name;
    var named := contacts.ContactsWhere(isNamed);
    OnlyLastMatches(changedFirst, second, third, isNamed);
    found := named[0];

    contacts.Remove(second);
    RemoveMiddle(changedFirst, second, third);
    size := contacts.Size();

    var list := new ContactList([]);
    list.Add(first);
    sizeOne := list.Size();
    list.Add(second);
    sizeTwo := list.Size();
  }

  /** Changing the first of three contacts by its id rewrites that one only,
      and the id then finds the new fields. */
  lemma ScriptChange(a: Contact, b: Contact, c: Contact, newContact: Contact)
    requires a.id != b.id && a.id != c.id
    ensures Changed([a, b, c], a.id, newContact) == [WithFieldsOf(a, newContact), b, c]
    ensures FirstMatch([WithFieldsOf(a, newContact), b, c], HasId(a.id)) == Some(WithFieldsOf(a, newContact))
  {
    var s := [a, b, c];
    assert s[0].id == a.id;
    ChangedSpec(s, a.id, newContact);
    ChangeThenFind(s, a.id, newContact);
  }

  /** Of three contacts, when only the last matches, filtering gives it alone. */
  lemma OnlyLastMatches(a: Contact, b: Contact, c: Contact, p: Contact -> bool)
    requires !p(a) && !p(b) && p(c)
    ensures Filter([a, b, c], p) == [c]
  {
    assert [a, b, c] == [a, b] + [c];
    FilterConcat([a, b], [c], p);
    FilterEmpty([a, b], p);
    assert Filter([c], p) == Filter([], p) + [c];
  }

  /** Removing a contact that occurs once among three leaves two. */
  lemma RemoveMiddle(a: Contact, b: Contact, c: Contact)
    requires a != b && c != b
    ensures |RemoveAll([a, b, c], b)| == 2
  {
    RemoveAllSize([a, b, c], b);
    assert multiset([a, b, c])[b] == 1;
  }
}
