/** The `ContactBook` class of the `Contacts` package: contacts kept in a
    dictionary under their `Int` ids, a counter that hands out the next id,
    and the whole book written as JSON to a file after every change. The file
    is the ghost field `file`. */
module ContactBookStore {
  import opened Wrappers
  import opened Seqs
  import opened ContactBookModel

  /** What the JSON file holds: the dictionary and the counter. */
  datatype Snapshot = Snapshot(contacts: map<int, Contact>, lastId: int)

  class ContactBook {
    var contacts: map<int, Contact>
    var lastId: int
    ghost var file: Stored<Snapshot>

    predicate Valid()
      reads this
    {
      KeysAreIds(contacts, lastId)
    }

    /** `init(contacts:lastId:)`: the given dictionary and counter; the file
        is left as it is. */
    constructor (contacts: map<int, Contact>, lastId: int, ghost file: Stored<Snapshot>)
      ensures this.contacts == contacts && this.lastId == lastId && this.file == file
    {
      this.contacts := contacts;
      this.lastId := lastId;
      this.file := file;
    }

    /** `init()`: a missing file gives an empty book with counter 0, and
        nothing is written; a file that does not decode makes the initialiser
        throw (`None` here); otherwise the decoded dictionary and counter. */
    static method Open(file: Stored<Snapshot>) returns (r: Option<ContactBook>)
      ensures r.None? <==> file.Corrupt?
      ensures r.Some? ==> fresh(r.value) && r.value.file == file
      ensures r.Some? && file.Missing? ==> r.value.contacts == map[] && r.value.lastId == 0 && r.value.Valid()
      ensures r.Some? && file.Saved? ==>
                r.value.contacts == file.contents.contacts && r.value.lastId == file.contents.lastId
    {
      if file.Corrupt? {
        return None;
      }
      var book: ContactBook;
      if file.Saved? {
        book := new ContactBook(file.contents.contacts, file.contents.lastId, file);
      } else {
        book := new ContactBook(map[], 0, file);
      }
      return Some(book);
    }

    /** `addContact(name:surname:phone:)`: advance the counter, store a new
        contact under it and write the book. Swift's `lastId += 1` traps on
        overflow, hence the precondition. */
    method AddContact(name: string, surname: string, phone: string) returns (newContact: Contact)
      requires lastId < IntMax
      modifies this
      ensures lastId == old(lastId) + 1
      ensures newContact == Contact(lastId, name, surname, phone)
      ensures contacts == old(contacts)[lastId := newContact]
      ensures file == Saved(Snapshot(contacts, lastId))
      ensures old(Valid()) ==> Valid() && newContact.id !in old(contacts) && |contacts| == |old(contacts)| + 1
    {
      ghost var before := contacts;
      lastId := lastId + 1;
      var newId := lastId;
      newContact := Contact(newId, name, surname, phone);
      contacts := contacts[newId := newContact];
      file := Saved(Snapshot(contacts, lastId));
      if KeysAreIds(before, lastId - 1) {
        AddKeepsKeysAreIds(before, lastId - 1, newContact);
      }
    }

    /** `updateContact(newContact:)`: replace the contact stored under
        `newContact.id` and write the book; with no contact under that id it
        throws `noContact`, and nothing changes and nothing is written. */
    method UpdateContact(newContact: Contact) returns (r: Outcome<ContactError>)
      modifies this
      ensures r.Fail? <==> newContact.id !in old(contacts)
      ensures r.Fail? ==> r.error == NoContact && contacts == old(contacts) && file == old(file)
      ensures r.Pass? ==> contacts == old(contacts)[newContact.id := newContact] &&
                          |contacts| == |old(contacts)| && file == Saved(Snapshot(contacts, lastId))
      ensures lastId == old(lastId)
      ensures old(Valid()) ==> Valid()
    {
      if newContact.id !in contacts {
        return Fail(NoContact);
      }
      ghost var before := contacts;
      contacts := contacts[newContact.id := newContact];
      file := Saved(Snapshot(contacts, lastId));
      assert before.Keys == contacts.Keys;
      if KeysAreIds(before, lastId) {
        ReplaceKeepsKeysAreIds(before, lastId, newContact.id, newContact);
      }
      return Pass;
    }

    /** `removeContact(id:)`: drop the entry, if there is one, and write the
        book; an absent id is not an error. */
    method RemoveContact(id: int)
      modifies this
      ensures contacts == old(contacts) - {id}
      ensures lastId == old(lastId)
      ensures file == Saved(Snapshot(contacts, lastId))
      ensures old(Valid()) ==> Valid()
    {
      ghost var before := contacts;
      contacts := contacts - {id};
      file := Saved(Snapshot(contacts, lastId));
      if KeysAreIds(before, lastId) {
        RemoveKeepsKeysAreIds(before, lastId, id);
      }
    }

    /** `listContacts(where:)`: the stored contacts that match, in the
        dictionary's iteration order, which Swift leaves unspecified; here each
        step takes an arbitrary remaining key. `keys` records the order. */
    method ListContacts(matches: Contact -> bool) returns (result: seq<Contact>, ghost keys: seq<int>)
      ensures IsListing(contacts, matches, result, keys)
      ensures forall i :: 0 <= i < |result| ==> matches(result[i]) && result[i] in contacts.Values
      ensures forall k :: k in contacts && matches(contacts[k]) ==> contacts[k] in result
    {
      result, keys := [], [];
      ghost var seen: set<int> := {};
      var remaining := contacts.Keys;
      ListedAmongNothing(contacts, matches);
      while remaining != {}
        invariant remaining == contacts.Keys - seen && seen <= contacts.Keys
        invariant ListedAmong(contacts, matches, seen, result, keys)
        decreases remaining
      {
        assert exists x :: x in remaining by {
          if forall x :: x !in remaining {
            assert false;
          }
        }
        var k :| k in remaining;
        ListedAmongStep(contacts, matches, seen, result, keys, k);
        if matches(contacts[k]) {
          result, keys := result + [contacts[k]], keys + [k];
        }
        seen, remaining := seen + {k}, remaining - {k};
      }
      assert seen == contacts.Keys;
      forall i | 0 <= i < |result| ensures result[i] in contacts.Values {
        var w := keys[i];
        assert w in contacts && contacts[w] == result[i];
      }
      forall k | k in contacts && matches(contacts[k]) ensures contacts[k] in result {
        assert k in seen;
        assert k in keys;
        var j :| 0 <= j < |keys| && keys[j] == k;
        assert j < |result| && result[j] == contacts[k];
      }
    }
  }
}
