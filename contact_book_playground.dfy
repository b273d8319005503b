/** The `ContactBook` class of the `contacts` playground: the same dictionary
    and id counter as the package, kept in memory only, with
    `updateContact(id:newContact:)`, which stores the new contact under the
    given key without comparing that key with the contact's own id. */
module ContactBookPlayground {
  import opened Wrappers
  import opened Seqs
  import opened ContactBookModel

  class ContactBook {
    var contacts: map<int, Contact>
    var lastId: int

    predicate Valid()
      reads this
    {
      KeysAreIds(contacts, lastId)
    }

    /** The default initialiser: no contacts, counter 0. */
    constructor ()
      ensures contacts == map[] && lastId == 0
      ensures Valid()
    {
      contacts := map[];
      lastId := 0;
    }

    /** `addContact(name:surname:phone:)`: advance the counter and store a new
        contact under it. Swift's `lastId += 1` traps on overflow, hence the
        precondition. */
    method AddContact(name: string, surname: string, phone: string) returns (newContact: Contact)
      requires lastId < IntMax
      modifies this
      ensures lastId == old(lastId) + 1
      ensures newContact == Contact(lastId, name, surname, phone)
      ensures contacts == old(contacts)[lastId := newContact]
      ensures old(Valid()) ==> Valid() && newContact.id !in old(contacts) && |contacts| == |old(contacts)| + 1
    {
      ghost var before := contacts;
      lastId := lastId + 1;
      var newId := lastId;
      newContact := Contact(newId, name, surname, phone);
      contacts := contacts[newId := newContact];
      if KeysAreIds(before, lastId - 1) {
        AddKeepsKeysAreIds(before, lastId - 1, newContact);
      }
    }

    /** `updateContact(id:newContact:)`: with no contact under `id` it throws
        `noContact` and nothing changes; otherwise `newContact` is stored under
        `id`. The invariant survives exactly when `newContact.id == id`, which
        the method does not check. */
    method UpdateContact(id: int, newContact: Contact) returns (r: Outcome<ContactError>)
      modifies this
      ensures r.Fail? <==> id !in old(contacts)
      ensures r.Fail? ==> r.error == NoContact && contacts == old(contacts)
      ensures r.Pass? ==> contacts == old(contacts)[id := newContact] && |contacts| == |old(contacts)|
      ensures lastId == old(lastId)
      ensures old(Valid()) && r.Pass? ==> (Valid() <==> newContact.id == id)
      ensures old(Valid()) && r.Fail? ==> Valid()
    {
      if id !in contacts {
        return Fail(NoContact);
      }
      ghost var before := contacts;
      contacts := contacts[id := newContact];
      if KeysAreIds(before, lastId) {
        ReplaceKeepsKeysAreIds(before, lastId, id, newContact);
      }
      assert before.Keys == contacts.Keys;
      return Pass;
    }

    /** `removeContact(id:)`: drop the entry, if there is one. */
    method RemoveContact(id: int)
      modifies this
      ensures contacts == old(contacts) - {id}
      ensures lastId == old(lastId)
      ensures old(Valid()) ==> Valid()
    {
      ghost var before := contacts;
      contacts := contacts - {id};
      if KeysAreIds(before, lastId) {
        RemoveKeepsKeysAreIds(before, lastId, id);
      }
    }

    /** `listContacts(where:)`: the stored contacts that match, in the
        dictionary's unspecified order; `keys` records the order. */
    method ListContacts(matches: Contact -> bool) returns (result: seq<Contact>, ghost keys: seq<int>)
      ensures IsListing(contacts, matches, result, keys)
      ensures forall i :: 0 <= i < |result| ==> matches(result[i]) && result[i] in contacts.Values
      ensures forall k :: k in contacts && matches(contacts[k]) ==> contacts[k] in result
    {
      result, keys := [], [];
      ghost var seen: set<int> := {};
      var remaining := contacts.Keys;
      ListedAmongNothing(contacts, matches);
      while remaining != {}
        invariant remaining == contacts.Keys - seen && seen <= contacts.Keys
        invariant ListedAmong(contacts, matches, seen, result, keys)
        decreases remaining
      {
        assert exists x :: x in remaining by {
          if forall x :: x !in remaining {
            assert false;
          }
        }
        var k :| k in remaining;
        ListedAmongStep(contacts, matches, seen, result, keys, k);
        if matches(contacts[k]) {
          result, keys := result + [contacts[k]], keys + [k];
        }
        seen, remaining := seen + {k}, remaining - {k};
      }
      assert seen == contacts.Keys;
      forall i | 0 <= i < |result| ensures result[i] in contacts.Values {
        var w := keys[i];
        assert w in contacts && contacts[w] == result[i];
      }
      forall k | k in contacts && matches(contacts[k]) ensures contacts[k] in result {
        assert k in seen;
        assert k in keys;
        var j :| 0 <= j < |keys| && keys[j] == k;
        assert j < |result| && result[j] == contacts[k];
      }
    }
  }

  /** The script's filter: the phone is not empty and starts with '+'. */
  predicate StartsWithPlus(c: Contact) {
    |c.phone| > 0 && c.phone[0] == '+'
  }

  /** Storing a contact whose id differs from its key breaks the invariant,
      whatever the rest of the book and the counter: the case
      `updateContact(id:newContact:)` lets through. */
  lemma MismatchedUpdateBreaksInvariant(contacts: map<int, Contact>, lastId: int, id: int, c: Contact)
    requires c.id != id
    ensures !KeysAreIds(contacts[id := c], lastId)
  {
    assert contacts[id := c][id].id != id;
  }

  /** In a book of three distinct keys whose contacts all start with '+',
      three contacts match; without the first key, two. */
  lemma PlusCounts(m: map<int, Contact>, a: int, b: int, c: int)
    requires m.Keys == {a, b, c} && a != b && a != c && b != c
    requires forall k :: k in m ==> StartsWithPlus(m[k])
    ensures |MatchingKeys(m, StartsWithPlus)| == 3
    ensures |MatchingKeys(m - {a}, StartsWithPlus)| == 2
  {
    assert MatchingKeys(m, StartsWithPlus) == {a, b, c};
    assert MatchingKeys(m - {a}, StartsWithPlus) == {b, c};
  }

  /** The playground's script: three contacts added, two of them corrected by
      id, the count of '+' phones taken before and after the first contact is
      removed. */
  method Script() returns (alyaId: int, juliaId: int, iraId: int,
                           alyaName: string, juliaName: string, iraName: string,
                           plusBefore: nat, plusAfter: nat, alyaGone: bool)
    ensures alyaId < juliaId < iraId
    ensures alyaName == "Alya" && juliaName == "Julia" && iraName == "Ira"
    ensures plusBefore == 3 && plusAfter == 2
    ensures alyaGone
  {
    alyaId, juliaId, iraId, alyaName, juliaName, iraName, plusBefore, plusAfter, alyaGone :=
      RunScript(Contact(0, "Alya", "Nov", "+7911"), Contact(0, "Juliaaaaa", "Sam", "+3800"),
                Contact(0, "Nil", "Nil", "Nil"), "Julia", Contact(0, "Ira", "Hor", "+3801"));
  }

  /** The script's steps on any field values: the fields of `first`, `second`
      and `third` are added (their ids are not used), the second is renamed to
      `secondName`, the third is replaced by the fields of `thirdFix`. When the
      phones that remain start with '+', the count goes from 3 to 2. */
  method RunScript(first: Contact, second: Contact, third: Contact, secondName: string, thirdFix: Contact)
    returns (firstId: int, secondId: int, thirdId: int,
             firstName: string, newSecondName: string, thirdName: string,
             plusBefore: nat, plusAfter: nat, firstGone: bool)
    requires StartsWithPlus(first) && StartsWithPlus(second) && StartsWithPlus(thirdFix)
    ensures firstId == 1 && secondId == 2 && thirdId == 3
    ensures firstName == first.name && newSecondName == secondName && thirdName == thirdFix.name
    ensures plusBefore == 3 && plusAfter == 2
    ensures firstGone
  {
    var book := new ContactBook();
    var a, b, c := FillBook(book, first, second, third, secondName, thirdFix);
    firstId, secondId, thirdId := a.id, b.id, c.id;
    firstName, newSecondName, thirdName := book.contacts[1].name, book.contacts[2].name, book.contacts[3].name;

    PlusCounts(book.contacts, 1, 2, 3);
    var plus, keys := book.ListContacts(StartsWithPlus);
    ListingCount(book.contacts, StartsWithPlus, plus, keys);
    plusBefore := |plus|;

    book.RemoveContact(a.id);
    firstGone := a.id !in book.contacts;
    plus, keys := book.ListContacts(StartsWithPlus);
    ListingCount(book.contacts, StartsWithPlus, plus, keys);
    plusAfter := |plus|;
  }

  /** The script's first part on an empty book: three contacts added, the
      second renamed and the third replaced, both by id. */
  method FillBook(book: ContactBook, first: Contact, second: Contact, third: Contact,
                  secondName: string, thirdFix: Contact) returns (a: Contact, b: Contact, c: Contact)
    requires book.contacts == map[] && book.lastId == 0
    modifies book
    ensures a == Contact(1, first.name, first.surname, first.phone)
    ensures b.id == 2 && c.id == 3
    ensures book.Valid() && book.lastId == 3
    ensures book.contacts == map[1 := a, 2 := Contact(2, secondName, second.surname, second.phone),
                                 3 := thirdFix.(id := 3)]
  {
    a := book.AddContact(first.name, first.surname, first.phone);
    b := book.AddContact(second.name, second.surname, second.phone);
    c := book.AddContact(third.name, third.surname, third.phone);
    var r := book.UpdateContact(b.id, Contact(b.id, secondName, b.surname, b.phone));
    assert r.Pass?;
    r := book.UpdateContact(c.id, thirdFix.(id := c.id));
    assert r.Pass?;
  }
}
