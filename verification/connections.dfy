/** The server's list of connected clients: an intrusive doubly-linked
    list of client records with `head`, `tail`, a cursor `next` at the
    first client no worker has claimed yet, and a count `connections`.
    Three steps change it: accepting a connection appends a client,
    a free worker claims the client at the cursor, and a finished client
    is unlinked.  The locks around each step are left out; each step runs
    on its own.

    Client records are named by ids; the fields `next_client` and
    `prev_client` of all records are the maps `nextClient` and
    `prevClient`. */
module Connections {

  type ClientId = nat

  /** A client pointer: NULL or a client record. */
  datatype Link = Null | Node(id: ClientId)

  /** The number of worker threads `server_create` starts. */
  const PoolSize: nat := 64

  /** The list fields of the server record, with the links of every client
      record. */
  datatype ClientList = ClientList(head: Link, tail: Link, next: Link, connections: nat,
                                   nextClient: map<ClientId, Link>,
                                   prevClient: map<ClientId, Link>)

  /** The zero-filled server record. */
  const Empty := ClientList(Null, Null, Null, 0, map[], map[])

  /** What the server asserts about its list whenever it takes the lock to
      append or claim: no connections exactly when there is no head, and
      exactly when there is no tail; and more connections than workers
      only while some client is unclaimed. */
  predicate SourceInvariant(l: ClientList)
    ensures SourceInvariant(l) ==> (l.head == Null <==> l.tail == Null)
    ensures SourceInvariant(l) && l.connections > PoolSize ==> l.next != Null
  {
    && (l.connections == 0 <==> l.head == Null)
    && (l.connections == 0 <==> l.tail == Null)
    && (l.connections <= PoolSize || l.next != Null)
  }

  /** What `server_destroy_client` asserts before unlinking. */
  predicate DestroyAssertion(l: ClientList)
    ensures DestroyAssertion(l) ==> SourceInvariant(l)
  {
    l.connections > 0 && l.head != Null && l.tail != Null
    && (l.connections <= PoolSize || l.next != Null)
  }

  /** `c` names a record that is not allocated yet. */
  predicate Fresh(l: ClientList, c: ClientId) {
    c !in l.nextClient && c !in l.prevClient
  }

  /** `server_accept_connection`, as written: the new client, with both
      links NULL as `client_create` leaves them, is appended at the tail
      and becomes the cursor when there is none.  Its `prev_client` stays
      NULL. */
  function Accept(l: ClientList, c: ClientId): (r: ClientList)
    requires SourceInvariant(l)
    ensures SourceInvariant(r) && r.connections == l.connections + 1
    ensures r.tail == Node(c) && r.next != Null && (l.next != Null ==> r.next == l.next)
    ensures c in r.nextClient && (l.tail != Node(c) ==> r.nextClient[c] == Null)
    ensures c in r.prevClient && r.prevClient[c] == Null
  {
    var created := l.(nextClient := l.nextClient[c := Null], prevClient := l.prevClient[c := Null]);
    var linked :=
      if l.connections != 0 then created.(nextClient := created.nextClient[l.tail.id := Node(c)], tail := Node(c))
      else created.(head := Node(c), tail := Node(c));
    linked.(next := if l.next == Null then Node(c) else l.next, connections := l.connections + 1)
  }

  /** `server_accept_connection` with the new client's `prev_client` set
      to the old tail, as a doubly-linked list needs. */
  function AcceptLinked(l: ClientList, c: ClientId): (r: ClientList)
    requires SourceInvariant(l)
    ensures SourceInvariant(r) && r.connections == l.connections + 1
    ensures r.tail == Node(c) && r.next != Null && (l.next != Null ==> r.next == l.next)
    ensures c in r.nextClient && (l.tail != Node(c) ==> r.nextClient[c] == Null)
    ensures c in r.prevClient && r.prevClient[c] == l.tail
  {
    var created := l.(nextClient := l.nextClient[c := Null], prevClient := l.prevClient[c := l.tail]);
    var linked :=
      if l.connections != 0 then created.(nextClient := created.nextClient[l.tail.id := Node(c)], tail := Node(c))
      else created.(head := Node(c), tail := Node(c));
    linked.(next := if l.next == Null then Node(c) else l.next, connections := l.connections + 1)
  }

  /** A worker's claim: the cursor moves along `next_client`. */
  function Claim(l: ClientList): (r: ClientList)
    requires l.next != Null && l.next.id in l.nextClient
    ensures r.head == l.head && r.tail == l.tail && r.connections == l.connections
    ensures r.nextClient == l.nextClient && r.prevClient == l.prevClient
  {
    l.(next := l.nextClient[l.next.id])
  }

  /** `server_destroy_client`: the client is unlinked through its own
      `prev_client` and `next_client`, and the count goes down. */
  function Destroy(l: ClientList, c: ClientId): (r: ClientList)
    requires DestroyAssertion(l) && c in l.nextClient && c in l.prevClient
    ensures r.connections == l.connections - 1 && r.next == l.next
    ensures l.prevClient[c] == Null ==> r.head == l.nextClient[c]
    ensures l.nextClient[c] == Null ==> r.tail == l.prevClient[c]
  {
    var prev, succ := l.prevClient[c], l.nextClient[c];
    var a := if prev != Null then l.(nextClient := l.nextClient[prev.id := succ]) else l.(head := succ);
    var b := if succ != Null then a.(prevClient := a.prevClient[succ.id := prev]) else a.(tail := prev);
    b.(connections := l.connections - 1)
  }

  // ---------------------------------------------------------------------
  // The list the fields stand for.
  // ---------------------------------------------------------------------

  /** The link from position `i` of `cs` to the next one. */
  function Succ(cs: seq<ClientId>, i: nat): Link
    requires i < |cs|
  {
    if i + 1 < |cs| then Node(cs[i + 1]) else Null
  }

  /** The link from position `i` of `cs` back to the previous one. */
  function Pred(cs: seq<ClientId>, i: nat): Link
    requires i < |cs|
  {
    if i > 0 then Node(cs[i - 1]) else Null
  }

  function First(cs: seq<ClientId>): Link {
    if cs == [] then Null else Node(cs[0])
  }

  function Last(cs: seq<ClientId>): Link {
    if cs == [] then Null else Node(cs[|cs| - 1])
  }

  /** The first unclaimed client, if any. */
  function Cursor(cs: seq<ClientId>, claimed: nat): Link {
    if claimed < |cs| then Node(cs[claimed]) else Null
  }

  predicate Distinct(cs: seq<ClientId>) {
    forall i, j :: 0 <= i < j < |cs| ==> cs[i] != cs[j]
  }

  /** `next_client` leads from each client of `cs` to the following one. */
  predicate Linked(cs: seq<ClientId>, nextClient: map<ClientId, Link>) {
    forall i :: 0 <= i < |cs| ==> cs[i] in nextClient && nextClient[cs[i]] == Succ(cs, i)
  }

  /** `prev_client` leads from each client of `cs` back to the previous
      one. */
  predicate BackLinked(cs: seq<ClientId>, prevClient: map<ClientId, Link>) {
    forall i :: 0 <= i < |cs| ==> cs[i] in prevClient && prevClient[cs[i]] == Pred(cs, i)
  }

  /** `prev_client` is NULL in every client of `cs`, as `client_create`
      left it. */
  predicate Unlinked(cs: seq<ClientId>, prevClient: map<ClientId, Link>) {
    forall i :: 0 <= i < |cs| ==> cs[i] in prevClient && prevClient[cs[i]] == Null
  }

  /** `l` holds the list `cs` from `head` to `tail`, each client once, and
      the cursor is at the first of them not yet claimed; the first
      `claimed` are being served, one per worker. */
  ghost predicate ListOf(cs: seq<ClientId>, claimed: nat, l: ClientList)
    ensures ListOf(cs, claimed, l) ==> SourceInvariant(l)
  {
    && l.connections == |cs|
    && Distinct(cs)
    && l.head == First(cs)
    && l.tail == Last(cs)
    && Linked(cs, l.nextClient)
    && claimed <= |cs| && claimed <= PoolSize
    && l.next == Cursor(cs, claimed)
  }

  /** `cs` without its element at `k`. */
  function Without(cs: seq<ClientId>, k: nat): (r: seq<ClientId>)
    requires k < |cs|
    ensures |r| == |cs| - 1
    ensures forall i :: 0 <= i < k ==> r[i] == cs[i]
    ensures forall i :: k <= i < |r| ==> r[i] == cs[i + 1]
  {
    cs[..k] + cs[k + 1..]
  }

  // ---------------------------------------------------------------------
  // What each step does to the list.
  // ---------------------------------------------------------------------

  lemma EmptyList()
    ensures ListOf([], 0, Empty) && Unlinked([], Empty.prevClient) && BackLinked([], Empty.prevClient)
  {
  }

  /** Appending, as written, puts the client at the end of the list and
      keeps every `prev_client` NULL. */
  lemma AcceptKeepsList(cs: seq<ClientId>, claimed: nat, l: ClientList, c: ClientId)
    requires ListOf(cs, claimed, l) && Unlinked(cs, l.prevClient) && Fresh(l, c)
    ensures ListOf(cs + [c], claimed, Accept(l, c)) && Unlinked(cs + [c], Accept(l, c).prevClient)
  {
    AppendLinked(cs, l.nextClient, c);
    CursorAppend(cs, claimed, c);
    AppendUnlinked(cs, l.prevClient, c);
  }

  /** Appending with the back link set puts the client at the end of the
      list and keeps every `prev_client` right. */
  lemma AcceptLinkedKeepsList(cs: seq<ClientId>, claimed: nat, l: ClientList, c: ClientId)
    requires ListOf(cs, claimed, l) && BackLinked(cs, l.prevClient) && Fresh(l, c)
    ensures ListOf(cs + [c], claimed, AcceptLinked(l, c))
    ensures BackLinked(cs + [c], AcceptLinked(l, c).prevClient)
  {
    AppendLinked(cs, l.nextClient, c);
    CursorAppend(cs, claimed, c);
    AppendBackLinked(cs, l.prevClient, c);
  }

  /** A claim takes the first unclaimed client and moves the cursor to the
      one after it. */
  lemma ClaimAdvances(cs: seq<ClientId>, claimed: nat, l: ClientList)
    requires ListOf(cs, claimed, l) && l.next != Null && claimed < PoolSize
    ensures claimed < |cs| && l.next == Node(cs[claimed]) && l.next.id in l.nextClient
    ensures ListOf(cs, claimed + 1, Claim(l))
  {
    assert l.nextClient[cs[claimed]] == Succ(cs, claimed);
  }

  /** Unlinking the head, as written, takes it off the list and keeps every
      `prev_client` NULL. */
  lemma DestroyHeadKeepsList(cs: seq<ClientId>, claimed: nat, l: ClientList)
    requires ListOf(cs, claimed, l) && Unlinked(cs, l.prevClient) && 0 < claimed
    ensures DestroyAssertion(l) && cs[0] in l.nextClient && cs[0] in l.prevClient
    ensures ListOf(cs[1..], claimed - 1, Destroy(l, cs[0]))
    ensures Unlinked(cs[1..], Destroy(l, cs[0]).prevClient)
  {
    DestroyHeadAt(cs, claimed, l);
    assert Without(cs, 0) == cs[1..];
  }

  lemma DestroyHeadAt(cs: seq<ClientId>, claimed: nat, l: ClientList)
    requires ListOf(cs, claimed, l) && Unlinked(cs, l.prevClient) && 0 < claimed
    ensures DestroyAssertion(l) && cs[0] in l.nextClient && cs[0] in l.prevClient
    ensures ListOf(Without(cs, 0), claimed - 1, Destroy(l, cs[0]))
    ensures Unlinked(Without(cs, 0), Destroy(l, cs[0]).prevClient)
  {
    assert l.nextClient[cs[0]] == Succ(cs, 0) && l.prevClient[cs[0]] == Null;
    DestroyFields(l, cs[0]);
    RemoveLinked(cs, l.nextClient, 0);
    RemoveEnds(cs, 0);
    CursorRemove(cs, claimed, 0);
    RemoveHeadUnlinked(cs, l.prevClient);
  }

  /** Unlinking, as written, any client but the head loses the clients
      before it: the head moves past them, and no list the fields could
      stand for has as many clients as are counted. */
  lemma DestroyNonHeadBreaksList(cs: seq<ClientId>, claimed: nat, l: ClientList, k: nat,
                                 xs: seq<ClientId>, n: nat)
    requires ListOf(cs, claimed, l) && Unlinked(cs, l.prevClient) && 0 < k < |cs|
    ensures DestroyAssertion(l) && cs[k] in l.nextClient && cs[k] in l.prevClient
    ensures Destroy(l, cs[k]).head == Succ(cs, k)
    ensures !ListOf(xs, n, Destroy(l, cs[k]))
  {
    var d := Destroy(l, cs[k]);
    assert l.nextClient[cs[k]] == Succ(cs, k);
    if ListOf(xs, n, d) {
      LinkedSuffix(cs, l.nextClient, k + 1);
      assert First(cs[k + 1..]) == Succ(cs, k);
      LinkedUnique(xs, cs[k + 1..], l.nextClient);
      assert false;
    }
  }

  /** The smallest case of the above: two clients are accepted and claimed,
      and the second finishes first.  Head and tail both become NULL while
      one connection is still counted, which the next append or claim
      asserts against. */
  lemma NonHeadExample()
    ensures var l := Claim(Claim(Accept(Accept(Empty, 1), 2)));
      && DestroyAssertion(l) && 2 in l.nextClient && 2 in l.prevClient
      && var d := Destroy(l, 2);
         d.connections == 1 && d.head == Null && d.tail == Null && !SourceInvariant(d)
  {
    EmptyList();
    var l1 := Accept(Empty, 1);
    AcceptKeepsList([], 0, Empty, 1);
    AcceptKeepsList([1], 0, l1, 2);
    assert [1] + [2] == [1, 2];
    var l2 := Accept(l1, 2);
    ClaimAdvances([1, 2], 0, l2);
    ClaimAdvances([1, 2], 1, Claim(l2));
  }

  /** With the back links set, unlinking any claimed client takes exactly
      that client off the list and keeps every `prev_client` right. */
  lemma DestroyKeepsList(cs: seq<ClientId>, claimed: nat, l: ClientList, k: nat)
    requires ListOf(cs, claimed, l) && BackLinked(cs, l.prevClient) && k < claimed
    ensures DestroyAssertion(l) && cs[k] in l.nextClient && cs[k] in l.prevClient
    ensures ListOf(Without(cs, k), claimed - 1, Destroy(l, cs[k]))
    ensures BackLinked(Without(cs, k), Destroy(l, cs[k]).prevClient)
  {
    var prev, succ := Pred(cs, k), Succ(cs, k);
    assert l.nextClient[cs[k]] == succ && l.prevClient[cs[k]] == prev;
    DestroyFields(l, cs[k]);
    RemoveLinked(cs, l.nextClient, k);
    RemoveEnds(cs, k);
    CursorRemove(cs, claimed, k);
    RemoveBackLinked(cs, l.prevClient, k);
  }

  /** The same two clients with the back links set: the first one stays,
      alone, and the source's assertion holds. */
  lemma NonHeadLinkedExample()
    ensures var l := Claim(Claim(AcceptLinked(AcceptLinked(Empty, 1), 2)));
      && DestroyAssertion(l) && 2 in l.nextClient && 2 in l.prevClient
      && var d := Destroy(l, 2);
         ListOf([1], 1, d) && d.head == Node(1) && d.tail == Node(1) && SourceInvariant(d)
  {
    EmptyList();
    var l1 := AcceptLinked(Empty, 1);
    AcceptLinkedKeepsList([], 0, Empty, 1);
    AcceptLinkedKeepsList([1], 0, l1, 2);
    assert [1] + [2] == [1, 2];
    var l2 := AcceptLinked(l1, 2);
    ClaimAdvances([1, 2], 0, l2);
    ClaimAdvances([1, 2], 1, Claim(l2));
    var l := Claim(Claim(l2));
    DestroyKeepsList([1, 2], 2, l, 1);
    assert Without([1, 2], 1) == [1];
  }

  // ---------------------------------------------------------------------
  // The server record, updated in place.
  // ---------------------------------------------------------------------

  class Server {
    var head: Link
    var tail: Link
    /** The cursor `server->next`. */
    var next: Link
    var connections: nat
    var nextClient: map<ClientId, Link>
    var prevClient: map<ClientId, Link>

    function State(): ClientList
      reads this
    {
      ClientList(head, tail, next, connections, nextClient, prevClient)
    }

    /** `server_create`: the zero-filled server record. */
    constructor ()
      ensures State() == Empty
    {
      head, tail, next, connections := Null, Null, Null, 0;
      nextClient, prevClient := map[], map[];
    }

    /** `server_accept_connection`, as written. */
    method AcceptConnection(c: ClientId) returns (ok: bool)
      requires SourceInvariant(State()) && Fresh(State(), c)
      modifies this
      ensures ok && State() == Accept(old(State()), c)
    {
      nextClient, prevClient := nextClient[c := Null], prevClient[c := Null];
      if connections != 0 {
        nextClient := nextClient[tail.id := Node(c)];
        tail := Node(c);
      } else {
        head, tail := Node(c), Node(c);
      }
      if next == Null {
        next := Node(c);
      }
      connections := connections + 1;
      ok := true;
    }

    /** `server_accept_connection` with the back link set. */
    method AcceptConnectionLinked(c: ClientId) returns (ok: bool)
      requires SourceInvariant(State()) && Fresh(State(), c)
      modifies this
      ensures ok && State() == AcceptLinked(old(State()), c)
    {
      nextClient, prevClient := nextClient[c := Null], prevClient[c := tail];
      if connections != 0 {
        nextClient := nextClient[tail.id := Node(c)];
        tail := Node(c);
      } else {
        head, tail := Node(c), Node(c);
      }
      if next == Null {
        next := Node(c);
      }
      connections := connections + 1;
      ok := true;
    }

    /** The claim step of a worker, which waits while the cursor is NULL. */
    method ClaimClient() returns (c: ClientId)
      requires next != Null && next.id in nextClient
      modifies this
      ensures c == old(next).id && State() == Claim(old(State()))
    {
      c := next.id;
      next := nextClient[next.id];
    }

    /** `server_destroy_client`. */
    method DestroyClient(c: ClientId)
      requires DestroyAssertion(State()) && c in nextClient && c in prevClient
      modifies this
      ensures State() == Destroy(old(State()), c)
    {
      var prev, succ := prevClient[c], nextClient[c];
      if prev != Null {
        nextClient := nextClient[prev.id := succ];
      } else {
        head := succ;
      }
      if succ != Null {
        prevClient := prevClient[succ.id := prev];
      } else {
        tail := prev;
      }
      connections := connections - 1;
    }
  }

  // ---------------------------------------------------------------------
  // Helpers on sequences and maps.
  // ---------------------------------------------------------------------

  /** The fields `Destroy` leaves, one by one. */
  lemma DestroyFields(l: ClientList, c: ClientId)
    requires DestroyAssertion(l) && c in l.nextClient && c in l.prevClient
    ensures var d, prev, succ := Destroy(l, c), l.prevClient[c], l.nextClient[c];
      && d.head == (if prev == Null then succ else l.head)
      && d.tail == (if succ == Null then prev else l.tail)
      && d.next == l.next && d.connections == l.connections - 1
      && d.nextClient == (if prev == Null then l.nextClient else l.nextClient[prev.id := succ])
      && d.prevClient == (if succ == Null then l.prevClient else l.prevClient[succ.id := prev])
  {
  }

  /** A suffix of a linked list is linked. */
  lemma LinkedSuffix(cs: seq<ClientId>, m: map<ClientId, Link>, k: nat)
    requires Linked(cs, m) && k <= |cs|
    ensures Linked(cs[k..], m)
  {
    forall i | 0 <= i < |cs[k..]|
      ensures cs[k..][i] in m && m[cs[k..][i]] == Succ(cs[k..], i)
    {
      assert cs[k..][i] == cs[k + i];
    }
  }

  /** The `next_client` links from a first client determine the list. */
  lemma {:induction false} LinkedUnique(xs: seq<ClientId>, ys: seq<ClientId>, m: map<ClientId, Link>)
    requires Linked(xs, m) && Linked(ys, m) && First(xs) == First(ys)
    ensures xs == ys
    decreases |xs|
  {
    if xs != [] {
      assert ys != [] && xs[0] == ys[0];
      assert m[xs[0]] == Succ(xs, 0) && m[ys[0]] == Succ(ys, 0);
      LinkedSuffix(xs, m, 1);
      LinkedSuffix(ys, m, 1);
      LinkedUnique(xs[1..], ys[1..], m);
      assert xs == [xs[0]] + xs[1..] && ys == [ys[0]] + ys[1..];
    } else {
      assert ys == [];
    }
  }

  lemma AppendLinked(cs: seq<ClientId>, m: map<ClientId, Link>, c: ClientId)
    requires Linked(cs, m) && Distinct(cs) && c !in m
    ensures var m' := if cs == [] then m[c := Null] else m[c := Null][cs[|cs| - 1] := Node(c)];
      Linked(cs + [c], m') && Distinct(cs + [c])
      && First(cs + [c]) == (if cs == [] then Node(c) else First(cs)) && Last(cs + [c]) == Node(c)
  {
    var ds := cs + [c];
    var m' := if cs == [] then m[c := Null] else m[c := Null][cs[|cs| - 1] := Node(c)];
    forall i | 0 <= i < |ds|
      ensures ds[i] in m' && m'[ds[i]] == Succ(ds, i)
    {
      if i < |cs| {
        assert cs[i] in m;
        if i + 1 < |cs| {
          assert m[cs[i]] == Succ(cs, i);
        }
      }
    }
    forall i, j | 0 <= i < j < |ds|
      ensures ds[i] != ds[j]
    {
      assert cs[i] in m;
    }
  }

  lemma AppendUnlinked(cs: seq<ClientId>, p: map<ClientId, Link>, c: ClientId)
    requires Unlinked(cs, p)
    ensures Unlinked(cs + [c], p[c := Null])
  {
    var ds := cs + [c];
    forall i | 0 <= i < |ds|
      ensures ds[i] in p[c := Null] && p[c := Null][ds[i]] == Null
    {
      if i < |cs| {
        assert ds[i] == cs[i];
      }
    }
  }

  lemma AppendBackLinked(cs: seq<ClientId>, p: map<ClientId, Link>, c: ClientId)
    requires BackLinked(cs, p) && Distinct(cs + [c])
    ensures BackLinked(cs + [c], p[c := Last(cs)])
  {
    var ds := cs + [c];
    var p' := p[c := Last(cs)];
    forall i | 0 <= i < |ds|
      ensures ds[i] in p' && p'[ds[i]] == Pred(ds, i)
    {
      if i < |cs| {
        assert ds[i] == cs[i] && ds[|cs|] == c;
        assert p[cs[i]] == Pred(cs, i);
      }
    }
  }

  lemma CursorAppend(cs: seq<ClientId>, claimed: nat, c: ClientId)
    requires claimed <= |cs|
    ensures Cursor(cs + [c], claimed) == (if Cursor(cs, claimed) == Null then Node(c) else Cursor(cs, claimed))
  {
  }

  /** Unlinking the client at `k`: its predecessor (if any) is made to
      point at its successor. */
  lemma RemoveLinked(cs: seq<ClientId>, m: map<ClientId, Link>, k: nat)
    requires Linked(cs, m) && Distinct(cs) && k < |cs|
    ensures Linked(Without(cs, k), if k > 0 then m[cs[k - 1] := Succ(cs, k)] else m)
    ensures Distinct(Without(cs, k))
  {
    var ds := Without(cs, k);
    var m' := if k > 0 then m[cs[k - 1] := Succ(cs, k)] else m;
    forall i | 0 <= i < |ds|
      ensures ds[i] in m' && m'[ds[i]] == Succ(ds, i)
    {
      if i < k {
        assert ds[i] == cs[i];
        if i + 1 < k {
          assert m'[ds[i]] == m[cs[i]];
        }
      } else {
        assert ds[i] == cs[i + 1];
        assert i + 1 != k - 1;
        assert m'[ds[i]] == m[cs[i + 1]];
      }
    }
    forall i, j | 0 <= i < j < |ds|
      ensures ds[i] != ds[j]
    {
      var i', j' := if i < k then i else i + 1, if j < k then j else j + 1;
      assert ds[i] == cs[i'] && ds[j] == cs[j'];
    }
  }

  /** Unlinking the client at `k`: its successor (if any) is made to point
      back at its predecessor. */
  lemma RemoveBackLinked(cs: seq<ClientId>, p: map<ClientId, Link>, k: nat)
    requires BackLinked(cs, p) && Distinct(cs) && k < |cs|
    ensures BackLinked(Without(cs, k), if k + 1 < |cs| then p[cs[k + 1] := Pred(cs, k)] else p)
  {
    var ds := Without(cs, k);
    var p' := if k + 1 < |cs| then p[cs[k + 1] := Pred(cs, k)] else p;
    forall i | 0 <= i < |ds|
      ensures ds[i] in p' && p'[ds[i]] == Pred(ds, i)
    {
      if i < k {
        assert ds[i] == cs[i];
        assert i != k + 1;
        assert p'[ds[i]] == p[cs[i]];
      } else {
        assert ds[i] == cs[i + 1];
        if i > k {
          assert p'[ds[i]] == p[cs[i + 1]];
        }
      }
    }
  }

  /** Removing the head keeps every `prev_client` NULL. */
  lemma RemoveHeadUnlinked(cs: seq<ClientId>, p: map<ClientId, Link>)
    requires Unlinked(cs, p) && cs != []
    ensures Unlinked(Without(cs, 0), if 1 < |cs| then p[cs[1] := Null] else p)
  {
    var ds := Without(cs, 0);
    forall i | 0 <= i < |ds|
      ensures ds[i] in (if 1 < |cs| then p[cs[1] := Null] else p)
    {
      assert ds[i] == cs[i + 1];
    }
  }

  /** The ends of the list after the client at `k` is unlinked. */
  lemma RemoveEnds(cs: seq<ClientId>, k: nat)
    requires k < |cs|
    ensures First(Without(cs, k)) == (if k == 0 then Succ(cs, k) else First(cs))
    ensures Last(Without(cs, k)) == (if k + 1 == |cs| then Pred(cs, k) else Last(cs))
  {
  }

  /** Unlinking a claimed client leaves the cursor where it was. */
  lemma CursorRemove(cs: seq<ClientId>, claimed: nat, k: nat)
    requires k < claimed <= |cs|
    ensures Cursor(Without(cs, k), claimed - 1) == Cursor(cs, claimed)
  {
  }

}
