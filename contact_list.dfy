/** The `ContactList` class of the `Contacts` package: an array of contacts
    kept in insertion order and written whole to a JSON file after every
    change. The file is the ghost field `file`. */
module ContactListStore {
  import opened Wrappers
  import opened Seqs
  import opened Contacts

  /** The list after `update(contact:)`: the first contact with the same id is
      replaced; with none, the list is unchanged. */
  function Updated(s: seq<Contact>, contact: Contact): seq<Contact> {
    match FirstIndex(s, HasId(contact.id))
    case None => s
    case Some(i) => s[i := contact]
  }

  class ContactList {
    var contacts: seq<Contact>
    ghost var file: Stored<seq<Contact>>

    /** The list as loaded from `file`, which is left as it was. */
    constructor Restore(contacts: seq<Contact>, ghost file: Stored<seq<Contact>>)
      ensures this.contacts == contacts && this.file == file
    {
      this.contacts := contacts;
      this.file := file;
    }

    /** `init()`: a missing file gives an empty list, and nothing is written; a
        file that does not decode makes the initialiser throw (`None` here);
        otherwise the decoded contacts are the list. */
    static method Open(file: Stored<seq<Contact>>) returns (r: Option<ContactList>)
      ensures r.None? <==> file.Corrupt?
      ensures r.Some? ==> fresh(r.value) && r.value.file == file
      ensures r.Some? ==> r.value.contacts == if file.Saved? then file.contents else []
    {
      if file.Corrupt? {
        return None;
      }
      var list := new ContactList.Restore(if file.Saved? then file.contents else [], file);
      return Some(list);
    }

    function Size(): nat
      reads this
    {
      |contacts|
    }

    /** `add(_:)`: append, then write the whole list. */
    method Add(contact: Contact)
      modifies this
      ensures contacts == old(contacts) + [contact]
      ensures Size() == old(Size()) + 1
      ensures file == Saved(contacts)
    {
      contacts := contacts + [contact];
      file := Saved(contacts);
    }

    /** `contacts(where:)`: the matching contacts, in list order. */
    method ContactsWhere(matches: Contact -> bool) returns (result: seq<Contact>)
      ensures result == Filter(contacts, matches)
    {
      result := [];
      for i := 0 to |contacts|
        invariant result == Filter(contacts[..i], matches)
      {
        assert contacts[..i + 1][..i] == contacts[..i];
        if matches(contacts[i]) {
          result := result + [contacts[i]];
        }
      }
      assert contacts[..|contacts|] == contacts;
    }

    /** `contact(withId:)`: the first contact with that id, or `nil`. */
    function ContactWithId(id: Uuid): (r: Option<Contact>)
      reads this
      ensures r.None? <==> forall i :: 0 <= i < |contacts| ==> contacts[i].id != id
      ensures r.Some? ==> exists i :: 0 <= i < |contacts| && contacts[i] == r.value && r.value.id == id &&
                                      forall j :: 0 <= j < i ==> contacts[j].id != id
    {
      FirstMatch(contacts, HasId(id))
    }

    /** `update(contact:)`: replace the first contact with the same id and write
        the list; with no such contact nothing changes and nothing is written. */
    method Update(contact: Contact)
      modifies this
      ensures contacts == Updated(old(contacts), contact)
      ensures FirstIndex(old(contacts), HasId(contact.id)).None? ==> file == old(file)
      ensures FirstIndex(old(contacts), HasId(contact.id)).Some? ==> file == Saved(contacts)
    {
      var index := FirstIndex(contacts, HasId(contact.id));
      if index.Some? {
        contacts := contacts[index.value := contact];
        file := Saved(contacts);
      }
    }

    /** `remove(_:)`: drop every contact equal to the argument (there may be
        none) and write the list. */
    method Remove(contact: Contact)
      modifies this
      ensures contacts == RemoveAll(old(contacts), contact)
      ensures file == Saved(contacts)
    {
      contacts := RemoveAll(contacts, contact);
      file := Saved(contacts);
    }
  }

  /** `update(contact:)` changes exactly the first contact with the argument's
      id and keeps the length; with no such id the list is the same. */
  lemma UpdatedSpec(s: seq<Contact>, contact: Contact)
    ensures |Updated(s, contact)| == |s|
    ensures (forall i :: 0 <= i < |s| ==> s[i].id != contact.id) ==> Updated(s, contact) == s
    ensures forall i :: 0 <= i < |s| && s[i].id == contact.id && (forall j :: 0 <= j < i ==> s[j].id != contact.id) ==>
              Updated(s, contact) == s[i := contact]
  {
    var p := HasId(contact.id);
    forall i | 0 <= i < |s| && s[i].id == contact.id && (forall j :: 0 <= j < i ==> s[j].id != contact.id)
      ensures Updated(s, contact) == s[i := contact]
    {
      assert p(s[i]);
      var k := FirstIndex(s, p);
      assert k.Some?;
    }
  }

  /** A contact added with an id no stored contact has is found again by that
      id. */
  lemma AddThenFind(s: seq<Contact>, contact: Contact)
    requires forall i :: 0 <= i < |s| ==> s[i].id != contact.id
    ensures FirstMatch(s + [contact], HasId(contact.id)) == Some(contact)
  {
    var t := s + [contact];
    var k := FirstIndex(t, HasId(contact.id));
    assert HasId(contact.id)(t[|s|]);
    assert k.Some? && k.value == |s|;
  }

  /** After an update whose id is present, looking the id up gives the new
      contact. */
  lemma UpdateThenFind(s: seq<Contact>, contact: Contact)
    requires exists i :: 0 <= i < |s| && s[i].id == contact.id
    ensures FirstMatch(Updated(s, contact), HasId(contact.id)) == Some(contact)
  {
    var p := HasId(contact.id);
    var k := FirstIndex(s, p);
    var t := Updated(s, contact);
    assert t == s[k.value := contact];
    var k' := FirstIndex(t, p);
    assert p(t[k.value]);
    assert k'.Some?;
  }

  /** When every contact with the argument's id equals it (ids are unique),
      after `remove` no contact has that id, and the list shrinks by the number
      of copies removed. */
  lemma RemoveThenFind(s: seq<Contact>, contact: Contact)
    requires forall i :: 0 <= i < |s| && s[i].id == contact.id ==> s[i] == contact
    ensures FirstMatch(RemoveAll(s, contact), HasId(contact.id)).None?
    ensures |RemoveAll(s, contact)| == |s| - multiset(s)[contact]
  {
    var r := RemoveAll(s, contact);
    forall i | 0 <= i < |r| ensures r[i].id != contact.id {
      assert r[i] in s;
    }
    RemoveAllSize(s, contact);
  }
}
