// The device context: the owner, the guests and who is logged in.
module Devices {
  import opened Ordering
  import opened Recipes

  datatype User = User(id: string, name: string, privateKey: string, active: bool)

  /** The part of the device context that is written to the configuration file. */
  datatype Device = Device(owner: Option<User>, users: map<string, User>)

  const NoDevice := Device(None, map[])

  /** What a save writes: the owner's private key is dropped unless the owner is logged in. */
  function Sanitized(d: Device, userID: string): (r: Device)
    ensures r.users == d.users
    ensures d.owner.None? || d.owner.value.id == userID ==> r == d
    ensures d.owner.Some? && r.owner.Some? ==> r.owner.value == d.owner.value.(privateKey := r.owner.value.privateKey)
    ensures d.owner.Some? && d.owner.value.id != userID ==> r.owner.Some? && r.owner.value.privateKey == ""
  {
    if d.owner.Some? && userID != d.owner.value.id
    then d.(owner := Some(d.owner.value.(privateKey := "")))
    else d
  }

  // ---- the guest list ----

  predicate NameBefore(x: User, y: User) { Less(x.name, y.name) }

  /** The slots of a slice of length n whose front holds the given users. */
  function Slots(list: seq<User>, n: nat): (r: seq<Option<User>>)
    requires |list| <= n
    ensures |r| == n && forall k | 0 <= k < n :: r[k] == if k < |list| then Some(list[k]) else None
  {
    seq(n, k requires 0 <= k => if k < |list| then Some(list[k]) else None)
  }

  /** Nobody stands behind a user with a greater name. */
  ghost predicate Ascending(list: seq<User>) {
    forall i, j | 0 <= i < j < |list| :: !NameBefore(list[j], list[i])
  }

  /** The users met by some walk of the guest map, one for each key in `keys`. */
  ghost predicate GuestWalk(users: map<string, User>, keys: set<string>, walk: seq<User>) {
    if walk == [] then keys == {}
    else
      exists k :: k in keys && k in users && users[k] == walk[|walk| - 1]
                  && GuestWalk(users, keys - {k}, walk[..|walk| - 1])
  }

  /** The guest list under construction, with the keys in `left` still to come. */
  ghost predicate PartialGuests(users: map<string, User>, left: set<string>, walk: seq<User>, list: seq<User>) {
    && left <= users.Keys && |list| + |left| == |users|
    && GuestWalk(users, users.Keys - left, walk) && Permutation(list, walk) && Ascending(list)
  }

  lemma NextGuest(users: map<string, User>, left: set<string>, walk: seq<User>, list: seq<User>, k: string,
                  placed: seq<User>)
    requires PartialGuests(users, left, walk, list) && k in left
    requires |placed| == |list| + 1 && Permutation(placed, list + [users[k]]) && Ascending(placed)
    ensures PartialGuests(users, left - {k}, walk + [users[k]], placed)
  {
    assert (walk + [users[k]])[..|walk|] == walk;
    assert users.Keys - (left - {k}) - {k} == users.Keys - left;
    assert multiset(list + [users[k]]) == multiset(walk + [users[k]]);
  }

  /** The slot of a new guest: behind everyone who is not greater. */
  ghost predicate GuestSlot(list: seq<User>, i: nat, user: User) {
    && i <= |list|
    && (forall k | 0 <= k < i :: !NameBefore(user, list[k]))
    && (i < |list| ==> NameBefore(user, list[i]))
  }

  lemma GuestPlaced(list: seq<User>, i: nat, user: User)
    requires Ascending(list) && GuestSlot(list, i, user)
    ensures Ascending(InsertAt(list, i, user))
  {
    forall k | i <= k < |list| ensures !NameBefore(list[k], user) {
      if NameBefore(list[k], user) { LessTransitive(list[k].name, user.name, list[i].name); }
      LessTrichotomy(user.name, list[i].name);
    }
    forall a, b | 0 <= a < b <= |list| ensures !NameBefore(InsertAt(list, i, user)[b], InsertAt(list, i, user)[a]) {
      InsertAtIndex(list, i, user, a);
      InsertAtIndex(list, i, user, b);
    }
  }

  /** When each guest is keyed by name, an ascending arrangement of the guests is strictly
      ascending and is the same whatever the walk. */
  lemma GuestListUnique(users: map<string, User>, walk: seq<User>, list: seq<User>, walk': seq<User>, list': seq<User>)
    requires forall k | k in users :: users[k].name == k
    requires GuestWalk(users, users.Keys, walk) && Permutation(list, walk) && Ascending(list)
    requires GuestWalk(users, users.Keys, walk') && Permutation(list', walk') && Ascending(list')
    ensures Sorted(NameBefore, list) && list == list'
    ensures forall u :: u in list <==> u.name in users && u == users[u.name]
  {
    GuestWalkMembers(users, users.Keys, walk);
    GuestWalkMembers(users, users.Keys, walk');
    PermutationMembers(list, walk);
    PermutationMembers(list', walk');
    AscendingStrict(walk, list);
    AscendingStrict(walk', list');
    DistinctSameMembers(list, list');
    forall x, y | x in list && y in list ensures !(NameBefore(x, y) && NameBefore(y, x)) {
      LessTrichotomy(x.name, y.name);
    }
    SortedUnique(NameBefore, list, list');
  }

  lemma {:induction false} GuestWalkMembers(users: map<string, User>, keys: set<string>, walk: seq<User>)
    requires (forall k | k in users :: users[k].name == k) && GuestWalk(users, keys, walk)
    ensures |walk| == |keys|
    ensures forall i, j | 0 <= i < j < |walk| :: walk[i].name != walk[j].name
    ensures forall u :: u in walk <==> u.name in keys && u.name in users && u == users[u.name]
  {
    if walk != [] {
      var rest, last := walk[..|walk| - 1], walk[|walk| - 1];
      var k :| k in keys && k in users && users[k] == last && GuestWalk(users, keys - {k}, rest);
      GuestWalkMembers(users, keys - {k}, rest);
      assert walk == rest + [last];
      forall i | 0 <= i < |rest| ensures rest[i].name != last.name {
        assert rest[i] in rest;
      }
    }
  }

  lemma AscendingStrict(walk: seq<User>, list: seq<User>)
    requires (forall i, j | 0 <= i < j < |walk| :: walk[i].name != walk[j].name)
    requires Permutation(list, walk) && Ascending(list)
    ensures Distinct(list) && Sorted(NameBefore, list)
  {
    DistinctPermutation(walk, list);
    PermutationMembers(list, walk);
    forall i, j | 0 <= i < j < |list| ensures NameBefore(list[i], list[j]) {
      assert list[i] in walk && list[j] in walk;
      LessTrichotomy(list[i].name, list[j].name);
    }
  }

  /** The inner loop of GetGuestUsers: scan the occupied slots for the first greater name,
      shift the rest up and write the user; or write into the first empty slot. */
  method PlaceGuest(users: array<Option<User>>, user: User, ghost list: seq<User>) returns (ghost placed: seq<User>)
    requires |list| < users.Length && users[..] == Slots(list, users.Length) && Ascending(list)
    modifies users
    ensures |placed| == |list| + 1 && Permutation(placed, list + [user]) && Ascending(placed)
    ensures users[..] == Slots(placed, users.Length)
  {
    assert forall k | 0 <= k < users.Length :: users[k] == users[..][k];
    var i := 0;
    while i < users.Length && users[i].Some? && !Less(user.name, users[i].value.name)
      invariant i <= |list|
      invariant forall k | 0 <= k < i :: !NameBefore(user, list[k])
    {
      i := i + 1;
    }
    placed := InsertAt(list, i, user);
    GuestPlaced(list, i, user);
    InsertAtPermutation(list, i, user);
    if users[i].Some? {
      // the shift drops the last slot, which is still empty
      assert users[users.Length - 1] == None;
      forall k | i < k < users.Length {
        users[k] := users[k - 1];
      }
    }
    users[i] := Some(user);
    forall k | 0 <= k < users.Length ensures users[k] == Slots(placed, users.Length)[k] {
      if k <= |list| { InsertAtIndex(list, i, user, k); }
    }
  }

  method ListGuests(all: map<string, User>)
    returns (guests: seq<Option<User>>, ghost walk: seq<User>, ghost list: seq<User>)
    ensures GuestWalk(all, all.Keys, walk) && Permutation(list, walk) && Ascending(list)
    ensures |list| == |all| && guests == Slots(list, |list|)
  {
    var users := new Option<User>[|all|](_ => None);
    var keys := all.Keys;
    list, walk := [], [];
    while keys != {}
      invariant PartialGuests(all, keys, walk, list) && users.Length == |all|
      invariant users[..] == Slots(list, |all|)
    {
      var key :| key in keys;
      ghost var placed := PlaceGuest(users, all[key], list);
      NextGuest(all, keys, walk, list, key, placed);
      walk, list := walk + [all[key]], placed;
      keys := keys - {key};
    }
    assert all.Keys - {} == all.Keys;
    guests := users[..];
  }

  ghost predicate KeyedByName(users: map<string, User>) {
    forall k | k in users :: users[k].name == k
  }

  /** Every slot is occupied, each guest stands in one slot, and names ascend strictly. */
  ghost predicate GuestsInOrder(users: map<string, User>, guests: seq<Option<User>>) {
    && |guests| == |users| && (forall i | 0 <= i < |guests| :: guests[i].Some?)
    && (forall i, j | 0 <= i < j < |guests| :: Less(guests[i].value.name, guests[j].value.name))
    && (forall u :: Some(u) in guests <==> u.name in users && u == users[u.name])
  }

  lemma GuestSlots(users: map<string, User>, walk: seq<User>, list: seq<User>, guests: seq<Option<User>>)
    requires GuestWalk(users, users.Keys, walk) && Permutation(list, walk) && Ascending(list)
    requires |list| == |users| && guests == Slots(list, |list|)
    ensures KeyedByName(users) ==> GuestsInOrder(users, guests)
  {
    if KeyedByName(users) {
      GuestListUnique(users, walk, list, walk, list);
      forall i, j | 0 <= i < j < |guests| ensures Less(guests[i].value.name, guests[j].value.name) {
        assert NameBefore(list[i], list[j]);
      }
    }
  }

  class DeviceContext {
    var device: Device
    var userID: string
    var userName: string

    constructor ()
      ensures device == NoDevice && userID == "" && userName == ""
    {
      device, userID, userName := NoDevice, "", "";
    }

    /** Every slot of the result is occupied, by an ascending arrangement of the guests;
        with guests keyed by name each stands in it exactly once, in strict name order. */
    method GetGuestUsers() returns (guests: seq<Option<User>>, ghost walk: seq<User>, ghost list: seq<User>)
      ensures GuestWalk(device.users, device.users.Keys, walk)
      ensures Permutation(list, walk) && Ascending(list)
      ensures |list| == |device.users| && guests == Slots(list, |list|)
      ensures KeyedByName(device.users) ==> GuestsInOrder(device.users, guests)
    {
      guests, walk, list := ListGuests(device.users);
      GuestSlots(device.users, walk, list, guests);
    }
  }
}
