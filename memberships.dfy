/** The rows a collection write puts into the collection/product join table.
    `collection.products.add(...)` inserts a row only for a product that is
    not yet a member, so adding is idempotent. */
module Memberships {
  import opened Models
  import opened Validation

  /** Whether product `pid` is in collection `cid`. */
  predicate IsMember(ms: map<Id, Membership>, cid: Id, pid: Id) {
    exists k :: k in ms && ms[k] == Membership(pid, cid)
  }

  /** The products of collection `cid`. */
  function MembersOf(ms: map<Id, Membership>, cid: Id): (s: set<Id>)
    ensures forall p :: p in s <==> IsMember(ms, cid, p)
  {
    var s := set k | k in ms && ms[k].collection == cid :: ms[k].product;
    assert forall p :: p in s ==> IsMember(ms, cid, p) by {
      forall p | p in s ensures IsMember(ms, cid, p) {
        var k :| k in ms && ms[k].collection == cid && ms[k].product == p;
        assert ms[k] == Membership(p, cid);
      }
    }
    s
  }

  /** The update's pre-filter: the ids that are not yet in the collection, in payload order. */
  function NotYetMembers(ms: map<Id, Membership>, cid: Id, ids: seq<Id>): (r: seq<Id>)
    ensures forall p :: p in r <==> p in ids && !IsMember(ms, cid, p)
  {
    if ids == [] then []
    else if IsMember(ms, cid, ids[0]) then NotYetMembers(ms, cid, ids[1..])
    else [ids[0]] + NotYetMembers(ms, cid, ids[1..])
  }

  /** The membership rows and the next free id. */
  datatype MemberTable = MemberTable(ms: map<Id, Membership>, next: Id)

  /** Adding one product: a new row under the next free id, unless it is already a member. */
  function AddOne(t: MemberTable, cid: Id, pid: Id): MemberTable {
    if IsMember(t.ms, cid, pid) then t
    else MemberTable(t.ms[t.next := Membership(pid, cid)], t.next + 1)
  }

  /** `add(*products)`: every product of the list, in order. */
  function AddAll(t: MemberTable, cid: Id, ids: seq<Id>): MemberTable
    decreases |ids|
  {
    if ids == [] then t else AddAll(AddOne(t, cid, ids[0]), cid, ids[1..])
  }

  ghost predicate FreshMembers(t: MemberTable) {
    forall k :: k in t.ms ==> k < t.next
  }

  /** One add keeps every old row, inserts at most one fresh row of this
      collection, and keeps membership unique. */
  lemma AddOneFrame(t: MemberTable, cid: Id, pid: Id)
    requires FreshMembers(t) && UniqueMembers(t.ms)
    ensures var u := AddOne(t, cid, pid);
      && FreshMembers(u) && UniqueMembers(u.ms) && t.next <= u.next
      && (forall k :: k in t.ms ==> k in u.ms && u.ms[k] == t.ms[k])
      && (forall k :: k in u.ms && k !in t.ms ==> t.next <= k < u.next && u.ms[k] == Membership(pid, cid))
      && IsMember(u.ms, cid, pid)
  {
    var u := AddOne(t, cid, pid);
    if !IsMember(t.ms, cid, pid) {
      assert u.ms[t.next] == Membership(pid, cid);
    }
  }

  /** Adding a list keeps every old row unchanged, puts new rows only into
      this collection under fresh ids and for products of the list, and
      never creates a second row for the same (collection, product). */
  lemma {:induction false} AddAllFrame(t: MemberTable, cid: Id, ids: seq<Id>)
    requires FreshMembers(t) && UniqueMembers(t.ms)
    ensures var u := AddAll(t, cid, ids);
      && FreshMembers(u) && UniqueMembers(u.ms) && t.next <= u.next
      && (forall k :: k in t.ms ==> k in u.ms && u.ms[k] == t.ms[k])
      && (forall k :: k in u.ms && k !in t.ms ==>
            t.next <= k < u.next && u.ms[k].collection == cid && u.ms[k].product in ids)
    decreases |ids|
  {
    if ids != [] {
      var t1 := AddOne(t, cid, ids[0]);
      AddOneFrame(t, cid, ids[0]);
      AddAllFrame(t1, cid, ids[1..]);
      var u := AddAll(t, cid, ids);
      forall k | k in u.ms && k !in t.ms
        ensures u.ms[k].collection == cid && u.ms[k].product in ids
      {
        if k in t1.ms {
          assert u.ms[k] == t1.ms[k];
        } else {
          assert u.ms[k].product in ids[1..];
        }
      }
    }
  }

  /** After adding, the collection's products are the old ones plus the
      listed ones; other collections keep theirs. */
  lemma {:induction false} AddAllMembers(t: MemberTable, cid: Id, ids: seq<Id>, c: Id)
    requires FreshMembers(t) && UniqueMembers(t.ms)
    ensures MembersOf(AddAll(t, cid, ids).ms, c) ==
            if c == cid then MembersOf(t.ms, c) + Elements(ids) else MembersOf(t.ms, c)
    decreases |ids|
  {
    if ids != [] {
      var t1 := AddOne(t, cid, ids[0]);
      AddOneFrame(t, cid, ids[0]);
      AddAllMembers(t1, cid, ids[1..], c);
      assert Elements(ids) == {ids[0]} + Elements(ids[1..]);
      var before := MembersOf(t.ms, c);
      var after := MembersOf(t1.ms, c);
      if c == cid {
        assert after == before + {ids[0]} by {
          forall p ensures p in after <==> p in before + {ids[0]} {
            if p in after && p != ids[0] {
              var k :| k in t1.ms && t1.ms[k] == Membership(p, c);
              assert k in t.ms;
            }
          }
        }
      } else {
        assert after == before by {
          forall p ensures p in after <==> p in before {
            if p in after {
              var k :| k in t1.ms && t1.ms[k] == Membership(p, c);
              assert k in t.ms;
            }
          }
        }
      }
    }
  }

  /** The update's pre-filter changes nothing: adding only the ids that were
      not members before adds exactly what adding the whole list does. */
  lemma {:induction false} PrefilterIsRedundant(t: MemberTable, ms0: map<Id, Membership>, cid: Id, ids: seq<Id>)
    requires FreshMembers(t) && UniqueMembers(t.ms)
    requires forall p :: IsMember(ms0, cid, p) ==> IsMember(t.ms, cid, p)
    ensures AddAll(t, cid, NotYetMembers(ms0, cid, ids)) == AddAll(t, cid, ids)
    decreases |ids|
  {
    if ids != [] {
      var t1 := AddOne(t, cid, ids[0]);
      AddOneFrame(t, cid, ids[0]);
      assert forall p :: IsMember(t.ms, cid, p) ==> IsMember(t1.ms, cid, p) by {
        forall p | IsMember(t.ms, cid, p) ensures IsMember(t1.ms, cid, p) {
          var k :| k in t.ms && t.ms[k] == Membership(p, cid);
          assert t1.ms[k] == Membership(p, cid);
        }
      }
      if IsMember(ms0, cid, ids[0]) {
        assert t1 == t;
        PrefilterIsRedundant(t, ms0, cid, ids[1..]);
      } else {
        PrefilterIsRedundant(t1, ms0, cid, ids[1..]);
        assert NotYetMembers(ms0, cid, ids) == [ids[0]] + NotYetMembers(ms0, cid, ids[1..]);
        assert ([ids[0]] + NotYetMembers(ms0, cid, ids[1..]))[1..] == NotYetMembers(ms0, cid, ids[1..]);
      }
    }
  }

  /** The rows added refer to the collection and to known products, so the
      reference invariants of the join table hold after adding. */
  lemma AddAllKeepsReferences(t: MemberTable, cid: Id, ids: seq<Id>,
                              collections: map<Id, Collection>, products: map<Id, Product>)
    requires FreshMembers(t) && UniqueMembers(t.ms)
    requires cid in collections
    requires forall i :: 0 <= i < |ids| ==> ids[i] in products
    requires forall k :: k in t.ms ==> t.ms[k].collection in collections && t.ms[k].product in products
    ensures MembershipsValid(AddAll(t, cid, ids).ms, collections, products)
  {
    AddAllFrame(t, cid, ids);
  }
}
