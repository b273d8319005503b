/** What the two `ContactBook` classes (the `Contacts` package and the
    `contacts` playground) share: the contact record with an `Int` id, the
    invariant that ties the dictionary's keys to the contacts' ids and to the
    id counter, and what `listContacts(where:)` returns. */
module ContactBookModel {
  import opened Seqs

  /** The largest Swift `Int` (64-bit): `lastId += 1` traps beyond it. */
  const IntMax: int := 0x7FFF_FFFF_FFFF_FFFF

  datatype Contact = Contact(id: int, name: string, surname: string, phone: string)

  datatype ContactError = NoContact

  /** The book's invariant: the counter, which starts at 0 and only grows, is
      not negative, and every key is the id of the contact stored under it and
      lies between 1 and the last id handed out. */
  predicate KeysAreIds(contacts: map<int, Contact>, lastId: int) {
    0 <= lastId &&
    forall k :: k in contacts ==> contacts[k].id == k && 1 <= k <= lastId
  }

  /** The keys whose contacts satisfy `matches`. */
  ghost function MatchingKeys(contacts: map<int, Contact>, matches: Contact -> bool): set<int> {
    set k | k in contacts && matches(contacts[k])
  }

  /** `result` lists, once each and in the order `keys` gives, the contacts
      stored under the keys of `seen` that satisfy `matches`: `keys` holds no
      key twice, `result[i]` is the contact stored under `keys[i]`, and every
      matching key of `seen` is in `keys`. */
  ghost predicate ListedAmong(contacts: map<int, Contact>, matches: Contact -> bool, seen: set<int>,
                              result: seq<Contact>, keys: seq<int>) {
    |keys| == |result| &&
    Distinct(keys) &&
    (forall i :: 0 <= i < |keys| ==> keys[i] in seen && keys[i] in contacts && result[i] == contacts[keys[i]]) &&
    (forall i :: 0 <= i < |result| ==> matches(result[i])) &&
    (forall k :: k in seen && k in contacts && matches(contacts[k]) ==> k in keys)
  }

  /** `result` is `contacts.values.filter(matches)` read in some dictionary
      order: a listing among all the keys. */
  ghost predicate IsListing(contacts: map<int, Contact>, matches: Contact -> bool,
                            result: seq<Contact>, keys: seq<int>) {
    ListedAmong(contacts, matches, contacts.Keys, result, keys)
  }

  /** Nothing is listed among no keys. */
  lemma ListedAmongNothing(contacts: map<int, Contact>, matches: Contact -> bool)
    ensures ListedAmong(contacts, matches, {}, [], [])
  {
  }

  /** Visiting one more key extends the listing by that key's contact when it
      matches, and leaves it as it is otherwise. */
  lemma ListedAmongStep(contacts: map<int, Contact>, matches: Contact -> bool, seen: set<int>,
                        result: seq<Contact>, keys: seq<int>, k: int)
    requires ListedAmong(contacts, matches, seen, result, keys)
    requires k in contacts && k !in seen
    ensures matches(contacts[k]) ==>
              ListedAmong(contacts, matches, seen + {k}, result + [contacts[k]], keys + [k])
    ensures !matches(contacts[k]) ==> ListedAmong(contacts, matches, seen + {k}, result, keys)
  {
  }

  /** A listing has exactly one element per matching entry. */
  lemma ListingCount(contacts: map<int, Contact>, matches: Contact -> bool,
                     result: seq<Contact>, keys: seq<int>)
    requires IsListing(contacts, matches, result, keys)
    ensures |result| == |MatchingKeys(contacts, matches)|
  {
    assert (set k | k in keys) == MatchingKeys(contacts, matches) by {
      forall k | k in keys ensures k in MatchingKeys(contacts, matches) {
        var i :| 0 <= i < |keys| && keys[i] == k;
        assert matches(result[i]);
      }
      forall k | k in MatchingKeys(contacts, matches) ensures k in keys {
      }
    }
    DistinctCard(keys);
  }

  /** A contact is listed exactly when some entry holds it and it matches. */
  lemma ListingMembers(contacts: map<int, Contact>, matches: Contact -> bool,
                       result: seq<Contact>, keys: seq<int>, c: Contact)
    requires IsListing(contacts, matches, result, keys)
    ensures c in result <==> matches(c) && exists k :: k in contacts && contacts[k] == c
  {
    if c in result {
      var i :| 0 <= i < |result| && result[i] == c;
      assert keys[i] in contacts && contacts[keys[i]] == c;
    }
    if matches(c) && exists k :: k in contacts && contacts[k] == c {
      var k :| k in contacts && contacts[k] == c;
      assert k in keys;
      var i :| 0 <= i < |keys| && keys[i] == k;
      assert result[i] == c;
    }
  }

  /** Under the invariant no contact is listed twice, so the listing is the
      set of matching stored contacts. */
  lemma ListingDistinct(contacts: map<int, Contact>, lastId: int, matches: Contact -> bool,
                        result: seq<Contact>, keys: seq<int>)
    requires KeysAreIds(contacts, lastId)
    requires IsListing(contacts, matches, result, keys)
    ensures Distinct(result)
  {
    forall i, j | 0 <= i < j < |result| ensures result[i] != result[j] {
      assert result[i].id == keys[i] && result[j].id == keys[j];
    }
  }

  /** Storing a contact under the next id: the id was free, so the map gains
      exactly one entry, and the invariant holds for the advanced counter. */
  lemma AddKeepsKeysAreIds(contacts: map<int, Contact>, lastId: int, c: Contact)
    requires KeysAreIds(contacts, lastId)
    requires c.id == lastId + 1
    ensures c.id !in contacts
    ensures |contacts[c.id := c]| == |contacts| + 1
    ensures KeysAreIds(contacts[c.id := c], lastId + 1)
  {
  }

  /** Replacing the contact under a present key keeps the invariant exactly
      when the new contact carries that key as its id; the number of entries
      does not change. */
  lemma ReplaceKeepsKeysAreIds(contacts: map<int, Contact>, lastId: int, id: int, c: Contact)
    requires KeysAreIds(contacts, lastId)
    requires id in contacts
    ensures |contacts[id := c]| == |contacts|
    ensures KeysAreIds(contacts[id := c], lastId) <==> c.id == id
  {
    var m := contacts[id := c];
    assert m.Keys == contacts.Keys;
    if KeysAreIds(m, lastId) {
      assert m[id].id == id;
    }
  }

  /** Dropping a key keeps the invariant. */
  lemma RemoveKeepsKeysAreIds(contacts: map<int, Contact>, lastId: int, id: int)
    requires KeysAreIds(contacts, lastId)
    ensures KeysAreIds(contacts - {id}, lastId)
    ensures id in contacts ==> |contacts - {id}| == |contacts| - 1
    ensures id !in contacts ==> contacts - {id} == contacts
  {
  }
}
