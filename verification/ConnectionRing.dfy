/** The ring of connections (core/connections.c), the whole-struct copy of the receive step (core/input.c) and the
    round robin of `smews_send` (core/output.c). */
module ConnectionRing {

  // ----- the ring as a sequence, from `all_connections` on -----

  predicate Distinct<T(==)>(s: seq<T>) { forall i, j :: 0 <= i < j < |s| ==> s[i] != s[j] }

  /** The ring with its head moved to place `k`. */
  function Turned<T>(s: seq<T>, k: nat): (t: seq<T>)
    requires k <= |s|
    ensures |t| == |s|
  {
    s[k..] + s[..k]
  }

  /** The ring without place `k`, headed by what came after it. */
  function Without<T>(s: seq<T>, k: nat): (t: seq<T>)
    requires k < |s|
    ensures |t| == |s| - 1
  {
    s[k + 1..] + s[..k]
  }

  /** The first place that can send; the length of the ring when none can. */
  function FirstAble<T(==)>(s: seq<T>, able: set<T>): (k: nat)
    ensures k <= |s| && (k < |s| ==> s[k] in able) && forall i :: 0 <= i < k ==> s[i] !in able
    decreases |s|
  {
    if s == [] || s[0] in able then 0 else
      var k := FirstAble(s[1..], able);
      assert forall i :: 1 <= i <= k ==> s[i] == s[1..][i - 1];
      1 + k
  }

  function Succ(i: nat, n: nat): (j: nat)
    requires i < n
    ensures j < n
  {
    if i + 1 == n then 0 else i + 1
  }

  // ----- connections -----

  /** The rest of the structure; `able` is what `able_to_send` would answer. */
  datatype Body = Body(able: bool, data: int)

  /** A copy of the whole structure, links included: `tmp_connection`. */
  datatype Copy = Copy(next: Connection?, prev: Connection?, body: Body)

  class Connection {
    var next: Connection?
    var prev: Connection?
    var body: Body

    constructor (b: Body)
      ensures body == b && next == null && prev == null
    {
      next, prev, body := null, null, b;
    }
  }

  ghost predicate LinkedAt(s: seq<Connection>, i: nat)
    requires i < |s|
    reads s
  {
    s[i].next == s[Succ(i, |s|)] && s[Succ(i, |s|)].prev == s[i]
  }

  ghost predicate Linked(s: seq<Connection>)
    reads s
  {
    forall i :: 0 <= i < |s| ==> LinkedAt(s, i)
  }

  lemma AllLinked(s: seq<Connection>)
    requires forall i :: 0 <= i < |s| ==> LinkedAt(s, i)
    ensures Linked(s)
  {
  }

  lemma LinkedTurns(s: seq<Connection>, k: nat)
    requires Linked(s) && Distinct(s) && k <= |s|
    ensures Linked(Turned(s, k)) && Distinct(Turned(s, k))
  {
    var t, n := Turned(s, k), |s|;
    forall i | 0 <= i < n
      ensures LinkedAt(t, i)
    {
      var j := if i + k < n then i + k else i + k - n;
      assert LinkedAt(s, j);
      assert t[i] == s[j];
      assert t[Succ(i, n)] == s[Succ(j, n)];
    }
  }

  lemma TurnedToFront<T>(s: seq<T>, k: nat)
    requires Distinct(s) && k < |s|
    ensures var t := Turned(s, k);
            && t[0] == s[k] && t[1..] == Without(s, k) && Distinct(t[1..])
            && (forall x :: x in t ==> x in s) && (forall x :: x in s ==> x in t)
  {
    assert s == s[..k] + s[k..];
  }

  class Ring {
    /** `all_connections`. */
    var all: Connection?
    ghost var conns: seq<Connection>

    ghost predicate Valid()
      reads this, conns
    {
      && (all == null <==> conns == [])
      && (conns != [] ==> conns[0] == all)
      && Distinct(conns) && Linked(conns)
    }

    /** One closed chain: following `next` from the head meets every connection once, in order, and comes back;
        `prev` is its inverse. */
    lemma OneRound(i: nat)
      requires Valid() && i < |conns|
      ensures conns[i].next == conns[Succ(i, |conns|)] && conns[Succ(i, |conns|)].prev == conns[i]
      ensures i + 1 == |conns| ==> conns[i].next == all
    {
      assert LinkedAt(conns, i);
    }

    constructor ()
      ensures Valid() && conns == []
    {
      all, conns := null, [];
    }

    /** `add_connection`: the new connection goes in front of the head, so it is last in the round. */
    method AddConnection(from: Copy, memory: bool) returns (c: Connection?)
      requires Valid()
      modifies this`conns, this`all, conns
      ensures Valid()
      ensures !memory ==> c == null && conns == old(conns)
      ensures memory ==> c != null && fresh(c) && conns == old(conns) + [c] && c.body == from.body
      ensures forall d :: d in old(conns) ==> d.body == old(d.body)
    {
      if !memory { return null; }
      c := new Connection(from.body);
      c.next, c.prev := from.next, from.prev;
      if all == null {
        c.next := c;
        c.prev := c;
        all := c;
      } else {
        assert all.prev == conns[|conns| - 1] by { assert LinkedAt(conns, |conns| - 1); }
        c.prev := all.prev;
        c.prev.next := c;
        c.next := all;
        all.prev := c;
      }
      ghost var s := conns;
      conns := conns + [c];
      forall i | 0 <= i < |conns|
        ensures LinkedAt(conns, i)
      {
        if i + 1 < |s| { assert old(LinkedAt(s, i)); }
      }
    }

    /** `free_connection`: the head moves to the connection after the one that goes. */
    method FreeConnection(c: Connection, ghost k: nat)
      requires Valid() && k < |conns| && conns[k] == c
      modifies this`conns, this`all, conns
      ensures Valid() && conns == Without(old(conns), k)
      ensures forall d :: d in old(conns) ==> d.body == old(d.body)
    {
      hide Linked, Turned, Without, Distinct;
      ghost var r := Turned(conns, k);
      LinkedTurns(conns, k);
      TurnedToFront(conns, k);
      assert LinkedAt(r, 0) && LinkedAt(r, |r| - 1);
      assert r[|r| - 1] in conns && r[Succ(0, |r|)] in conns;
      Unlink(c, r);
      if c == c.next {
        all := null;
      } else {
        all := c.next;
      }
      conns := r[1..];
    }

    /** The two link updates, seen from the connection that goes. */
    static method Unlink(c: Connection, ghost r: seq<Connection>)
      requires Linked(r) && Distinct(r) && r != [] && r[0] == c && c.prev != null && c.next != null
      modifies c.prev`next, c.next`prev
      ensures Linked(r[1..])
      ensures if |r| > 1 then c.next == r[1] != c else c.next == c
    {
      ghost var n := |r|;
      assert c.next == r[Succ(0, n)] && c.prev == r[n - 1] by { assert LinkedAt(r, 0) && LinkedAt(r, n - 1); }
      assert forall i :: 0 <= i < n ==> LinkedAt(r, i);
      forall i, j | 0 <= i < j < n
        ensures r[i] != r[j]
      {
      }
      hide Distinct;
      c.prev.next := c.next;
      c.next.prev := c.prev;
      hide Linked;
      forall i | 0 <= i < n - 1
        ensures LinkedAt(r[1..], i)
      {
        if i + 2 < n {
          assert r[1..][Succ(i, n - 1)] == r[i + 2];
          assert LinkedAt(r, i + 1) by { assert old(LinkedAt(r, i + 1)); }
        } else {
          assert r[1..][i] == r[n - 1] && r[1..][Succ(i, n - 1)] == r[1];
        }
      }
      AllLinked(r[1..]);
    }

    /** `*connection = tmp_connection`. Only a copy whose links are the current ones leaves the ring alone. */
    method CopyBack(c: Connection, tmp: Copy)
      requires Valid() && c in conns && tmp.next == c.next && tmp.prev == c.prev
      modifies c
      ensures Valid() && conns == old(conns) && all == old(all) && c.body == tmp.body
      ensures c.next == old(c.next) && c.prev == old(c.prev)
    {
      c.next, c.prev, c.body := tmp.next, tmp.prev, tmp.body;
      forall i | 0 <= i < |conns|
        ensures LinkedAt(conns, i)
      {
        assert old(LinkedAt(conns, i));
      }
    }

    /** The end of the receive step. `connection` was found in the ring, or not; `tmp` is the copy the step worked
        on, made before it. A new connection's links are put into the copy before the copy goes back. */
    method FinishReceive(connection: Connection?, ghost k: nat, body: Body, synReceived: bool, listen: bool, memory: bool)
      returns (reset: bool, added: Connection?)
      requires Valid() && (connection != null ==> k < |conns| && conns[k] == connection)
      modifies this`conns, this`all, conns
      ensures Valid()
      ensures added != null <==> connection == null && synReceived && memory
      ensures reset <==> connection == null && added == null
      ensures connection == null && added == null ==> conns == old(conns)
      ensures connection == null && added != null ==>
                fresh(added) && conns == (if listen then old(conns) else old(conns) + [added])
      ensures connection != null ==>
                conns == if listen then Without(old(conns), k) else old(conns)
      ensures connection != null && !listen ==> connection.body == body
    {
      var c := connection;
      var tmp := Copy(null, null, body);
      if c != null { tmp := Copy(c.next, c.prev, body); }
      added := null;
      ghost var place := k;
      if c == null && synReceived {
        added := AddConnection(tmp, memory);
        c := added;
        if c != null {
          tmp := tmp.(next := c.next, prev := c.prev);
          place := |conns| - 1;
        }
      }
      reset := c == null;
      if c != null {
        if listen {
          ghost var before := conns;
          FreeConnection(c, place);
          assert added != null ==> Without(before, place) == old(conns);
        } else {
          CopyBack(c, tmp);
        }
      }
    }

    /** The connections that can send now. */
    ghost function AbleOnes(): set<Connection>
      reads this, conns
    {
      set c | c in conns && c.body.able
    }

    /** The choice at the start of `smews_send`, and the turn of the ring behind it. */
    method SelectConnection() returns (active: Connection?)
      requires Valid()
      modifies this`all, this`conns
      ensures Valid()
      ensures var k := FirstAble(old(conns), old(AbleOnes()));
              if k == |old(conns)| then active == null && conns == old(conns)
              else active == old(conns)[k] && conns == Turned(old(conns), k + 1)
    {
      active := null;
      ghost var able, s := AbleOnes(), conns;
      if all != null {
        var conn := all;
        ghost var i := 0;
        while true
          invariant Valid() && all == old(all) && conns == s
          invariant 0 <= i < |conns| && conn == conns[i]
          invariant forall j :: 0 <= j < i ==> !conns[j].body.able
          decreases |conns| - i
        {
          if conn.body.able {
            active := conn;
            break;
          }
          OneRound(i);
          conn := conn.next;
          if conn == all { break; }
          i := i + 1;
        }
        ghost var k := FirstAble(s, able);
        if active == null {
          assert k == |s|;
          return;
        }
        assert k == i;
        OneRound(i);
        all := active.next;
        LinkedTurns(conns, i + 1);
        conns := Turned(conns, i + 1);
      }
    }
  }

  // ----- fairness -----

  /** A selecting send with the connections able at that moment, which turns the head behind the served one and may
      then free it, the last of the round; an added connection; a connection freed by the receive step. */
  datatype Event<T> = Select(able: set<T>, ended: bool) | Add(id: T) | Free(place: nat)

  function Step<T(==)>(s: seq<T>, e: Event<T>): seq<T> {
    match e
    case Select(able, ended) =>
      var k := FirstAble(s, able);
      if k == |s| then s else if ended then Without(Turned(s, k + 1), |s| - 1) else Turned(s, k + 1)
    case Add(id) => if id in s then s else s + [id]
    case Free(place) => if place < |s| then Without(s, place) else s
  }

  function Selections<T>(events: seq<Event<T>>): nat
    decreases |events|
  {
    if events == [] then 0 else (if events[0].Select? then 1 else 0) + Selections(events[1..])
  }

  /** The connection is able at every selection, and the receive step frees neither it nor any connection behind
      it in the round. */
  predicate Waits<T(==)>(s: seq<T>, x: T, place: nat, events: seq<Event<T>>)
    requires place < |s| && s[place] == x
    decreases |events|
  {
    events == [] ||
    match events[0]
    case Select(able, ended) =>
      x in able && (FirstAble(s, able) < place ==> Waits(Step(s, events[0]), x, place - FirstAble(s, able) - 1, events[1..]))
    case Add(id) => Waits(Step(s, events[0]), x, place, events[1..])
    case Free(k) => k < place && Waits(Step(s, events[0]), x, place - k - 1, events[1..])
  }

  predicate Served<T(==)>(s: seq<T>, x: T, events: seq<Event<T>>)
    decreases |events|
  {
    events != [] &&
    ((events[0].Select? && var k := FirstAble(s, events[0].able); k < |s| && s[k] == x)
     || Served(Step(s, events[0]), x, events[1..]))
  }

  /** Where one event takes the connection that waits at `place`. */
  lemma PlaceAfter<T>(s: seq<T>, x: T, place: nat, e: Event<T>)
    requires place < |s| && s[place] == x
    ensures e.Select? && x in e.able ==> FirstAble(s, e.able) <= place
    ensures e.Select? && FirstAble(s, e.able) < place ==>
              var p := place - FirstAble(s, e.able) - 1; p < |Step(s, e)| && Step(s, e)[p] == x
    ensures e.Add? ==> place < |Step(s, e)| && Step(s, e)[place] == x
    ensures e.Free? && e.place < place ==> place - e.place - 1 < |Step(s, e)| && Step(s, e)[place - e.place - 1] == x
  {
  }

  /** One event serves the waiting connection, or brings it forward: by one place at least if it is a selection. */
  lemma OneTurn<T>(s: seq<T>, x: T, place: nat, events: seq<Event<T>>) returns (p: nat)
    requires place < |s| && s[place] == x && events != [] && Waits(s, x, place, events)
    ensures Served(s, x, events) ||
            var s' := Step(s, events[0]);
            && p < |s'| && s'[p] == x && Waits(s', x, p, events[1..])
            && p + (if events[0].Select? then 1 else 0) <= place
            && (Served(s', x, events[1..]) ==> Served(s, x, events))
  {
    hide Step, FirstAble;
    var e := events[0];
    PlaceAfter(s, x, place, e);
    p := place;
    if e.Free? {
      p := place - e.place - 1;
    } else if e.Select? {
      var k := FirstAble(s, e.able);
      if k < place { p := place - k - 1; }
    }
    assert Served(Step(s, e), x, events[1..]) ==> Served(s, x, events);
  }

  /** A connection at place `place` that stays able is served within `place + 1` selecting sends, whatever is added,
      whoever ends after being served, and whoever before it the receive step frees. */
  lemma {:induction false} ServedInTurn<T>(s: seq<T>, x: T, place: nat, events: seq<Event<T>>)
    requires place < |s| && s[place] == x && Waits(s, x, place, events)
    requires Selections(events) > place
    ensures Served(s, x, events)
    decreases |events|
  {
    hide Step, Waits, Served;
    var p := OneTurn(s, x, place, events);
    if !Served(s, x, events) { ServedInTurn(Step(s, events[0]), x, p, events[1..]); }
  }

  function Repeat<T>(e: seq<Event<T>>, n: nat): seq<Event<T>> { if n == 0 then [] else e + Repeat(e, n - 1) }

  lemma OneStarvingRound<T>(a: T, x: T, b: T)
    requires a != x && a != b && x != b
    ensures Step([a, x, b], Select({a, x}, false)) == [x, b, a] && FirstAble([a, x, b], {a, x}) == 0
    ensures Step([x, b, a], Free(1)) == [a, x] && Step([a, x], Add(b)) == [a, x, b]
  {
  }

  lemma RoundPassesOver<T>(a: T, x: T, b: T)
    requires a != x && a != b && x != b
    ensures var round := [Select({a, x}, false), Free(1), Add(b)];
            && !Served([a, x, b], x, round) && Selections(round) == 1
            && Final([a, x, b], round) == [a, x, b]
  {
    OneStarvingRound(a, x, b);
    hide Step, FirstAble;
    var round: seq<Event<T>> := [Select({a, x}, false), Free(1), Add(b)];
    assert round[1..] == [Free(1), Add(b)] && round[1..][1..] == [Add(b)] && round[1..][1..][1..] == [];
    assert !Served([a, x], x, round[1..][1..]) && Final([a, x], round[1..][1..]) == [a, x, b];
    assert !Served([x, b, a], x, round[1..]) && Final([x, b, a], round[1..]) == [a, x, b];
    assert Selections(round[1..][1..]) == 0;
  }

  /** Freed connections behind it can hold a connection back for ever. Each time: `a` sends and `x` would be next;
      `b`, behind `x`, is freed, and the head jumps past `x`; a connection like `b` is added again. */
  lemma {:induction false} FreesBehindStarve<T>(a: T, x: T, b: T, n: nat)
    requires a != x && a != b && x != b
    ensures !Served([a, x, b], x, Repeat([Select({a, x}, false), Free(1), Add(b)], n))
    ensures Selections(Repeat([Select({a, x}, false), Free(1), Add(b)], n)) == n
  {
    if n > 0 {
      hide Served, Selections, Final;
      FreesBehindStarve(a, x, b, n - 1);
      var round: seq<Event<T>> := [Select({a, x}, false), Free(1), Add(b)];
      RoundPassesOver(a, x, b);
      ServedAppend([a, x, b], x, round, Repeat(round, n - 1));
    }
  }

  // ----- from any ring -----

  predicate AbleThroughout<T(==)>(x: T, events: seq<Event<T>>) {
    forall i :: 0 <= i < |events| && events[i].Select? ==> x in events[i].able
  }

  function Final<T(==)>(s: seq<T>, events: seq<Event<T>>): seq<T>
    decreases |events|
  {
    if events == [] then s else Final(Step(s, events[0]), events[1..])
  }

  lemma {:induction false} ServedAppend<T>(s: seq<T>, x: T, a: seq<Event<T>>, b: seq<Event<T>>)
    ensures Served(s, x, a + b) <==> Served(s, x, a) || Served(Final(s, a), x, b)
    ensures Selections(a + b) == Selections(a) + Selections(b)
    ensures Final(s, a + b) == Final(Final(s, a), b)
    decreases |a|
  {
    hide Step, FirstAble;
    if a == [] {
      assert a + b == b;
    } else {
      assert (a + b)[0] == a[0] && (a + b)[1..] == a[1..] + b;
      ServedAppend(Step(s, a[0]), x, a[1..], b);
    }
  }

  lemma {:induction false} NoSelection<T>(s: seq<T>, x: T, events: seq<Event<T>>)
    requires forall i :: 0 <= i < |events| ==> !events[i].Select?
    ensures !Served(s, x, events) && Selections(events) == 0
    decreases |events|
  {
    hide Step, FirstAble;
    if events != [] { NoSelection(Step(s, events[0]), x, events[1..]); }
  }

  lemma OneEvent<T>(s: seq<T>, e: Event<T>)
    ensures Final(s, [e]) == Step(s, e)
  {
    hide Step;
    assert [e][1..] == [];
  }

  lemma TwoEvents<T>(s: seq<T>, e: Event<T>, f: Event<T>)
    ensures Final(s, [e, f]) == Step(Step(s, e), f)
  {
    hide Step;
    assert [e, f][1..] == [f];
    OneEvent(Step(s, e), f);
  }

  /** A fourth connection. */
  lemma Another<T>(s: seq<T>, a: T, x: T, b: T) returns (k: nat)
    requires Distinct(s) && |s| > 3
    ensures k < |s| && s[k] != a && s[k] != x && s[k] != b
  {
    assert s[0] != s[1] && s[0] != s[2] && s[0] != s[3] && s[1] != s[2] && s[1] != s[3] && s[2] != s[3];
    k := if s[0] !in {a, x, b} then 0 else if s[1] !in {a, x, b} then 1 else if s[2] !in {a, x, b} then 2 else 3;
  }

  lemma WithoutKeeps<T>(s: seq<T>, k: nat, x: T)
    requires Distinct(s) && k < |s| && x in s && s[k] != x
    ensures Distinct(Without(s, k)) && x in Without(s, k)
  {
    var i :| 0 <= i < |s| && s[i] == x;
    assert if i > k then Without(s, k)[i - k - 1] == x else Without(s, k)[|s| - k - 1 + i] == x;
  }

  ghost predicate Framed<T>(s: seq<T>, a: T, x: T, b: T) { s == [a, x, b] || s == [b, x, a] }

  /** Freeing `a` and adding it again, and then `b` if need be, puts `x` between them. */
  lemma ThreeToFrame<T>(s: seq<T>, a: T, x: T, b: T) returns (events: seq<Event<T>>)
    requires Distinct(s) && |s| == 3 && a in s && x in s && b in s && a != x && a != b && x != b
    ensures Framed(Final(s, events), a, x, b) && forall i :: 0 <= i < |events| ==> !events[i].Select?
  {
    var k := if s[0] == a then 0 else if s[1] == a then 1 else 2;
    WithoutKeeps(s, k, x);
    WithoutKeeps(s, k, b);
    var r := Without(s, k);
    assert |r| == 2 && a !in r;
    TwoEvents(s, Free(k), Add(a));
    events := [Free(k), Add(a)];
    assert Step(Step(s, Free(k)), Add(a)) == r + [a];
    if r[0] == b {
      assert r + [a] == [b, x, a];
    } else {
      assert r + [a] == [x, b, a];
      assert Without([x, b, a], 1) == [a, x];
      TwoEvents([x, b, a], Free(1), Add(b));
      assert Step(Step([x, b, a], Free(1)), Add(b)) == [a, x, b];
      ServedAppend(s, x, [Free(k), Add(a)], [Free(1), Add(b)]);
      events := [Free(k), Add(a)] + [Free(1), Add(b)];
    }
  }

  lemma ThreeIn<T>(s: seq<T>, a: T, x: T, b: T)
    requires a in s && x in s && b in s && a != x && a != b && x != b
    ensures |s| >= 3
  {
    var i :| 0 <= i < |s| && s[i] == a;
    var j :| 0 <= j < |s| && s[j] == x;
    var k :| 0 <= k < |s| && s[k] == b;
  }

  /** Freeing all others first. */
  lemma {:induction false} AnyToFrame<T>(s: seq<T>, a: T, x: T, b: T) returns (events: seq<Event<T>>)
    requires Distinct(s) && a in s && x in s && b in s && a != x && a != b && x != b
    ensures Framed(Final(s, events), a, x, b) && forall i :: 0 <= i < |events| ==> !events[i].Select?
    decreases |s|
  {
    ThreeIn(s, a, x, b);
    if |s| == 3 {
      events := ThreeToFrame(s, a, x, b);
    } else {
      var k := Another(s, a, x, b);
      WithoutKeeps(s, k, a);
      WithoutKeeps(s, k, x);
      WithoutKeeps(s, k, b);
      var more := AnyToFrame(Without(s, k), a, x, b);
      OneEvent(s, Free(k));
      ServedAppend(s, x, [Free(k)], more);
      events := [Free(k)] + more;
    }
  }

  lemma {:induction false} AbleInRounds<T>(a: T, x: T, b: T, n: nat)
    ensures AbleThroughout(x, Repeat([Select({a, x}, false), Free(1), Add(b)], n))
  {
    if n > 0 { AbleInRounds(a, x, b, n - 1); }
  }

  /** So `Waits` leaves out no more than it must: in any ring, any connection can be kept waiting through any number
      of selecting sends, able in all of them, once frees behind it are allowed. */
  lemma AnyRingCanStarve<T>(s: seq<T>, x: T, a: T, b: T, n: nat) returns (events: seq<Event<T>>)
    requires Distinct(s) && x in s && a !in s && b !in s && a != b
    ensures AbleThroughout(x, events) && Selections(events) == n && !Served(s, x, events)
  {
    hide FirstAble, Step, Served, Selections, Final, Distinct, Repeat, AbleThroughout;
    var r := s + [a] + [b];
    AddsTwo(s, a, b);
    var frame := AnyToFrame(r, a, x, b);
    var rounds;
    if Final(r, frame) == [a, x, b] {
      rounds := Repeat([Select({a, x}, false), Free(1), Add(b)], n);
      FreesBehindStarve(a, x, b, n);
      AbleInRounds(a, x, b, n);
    } else {
      rounds := Repeat([Select({b, x}, false), Free(1), Add(a)], n);
      FreesBehindStarve(b, x, a, n);
      AbleInRounds(b, x, a, n);
    }
    var prelude := [Add(a), Add(b)] + frame;
    ServedAppend(s, x, [Add(a), Add(b)], frame);
    ServedAppend(s, x, prelude, rounds);
    NoSelection(s, x, prelude);
    AbleAppend(x, prelude, rounds);
    events := prelude + rounds;
  }

  lemma AddsTwo<T>(s: seq<T>, a: T, b: T)
    requires Distinct(s) && a !in s && b !in s && a != b
    ensures Final(s, [Add(a), Add(b)]) == s + [a] + [b] && Distinct(s + [a] + [b])
  {
    TwoEvents(s, Add(a), Add(b));
  }

  lemma AbleAppend<T>(x: T, a: seq<Event<T>>, b: seq<Event<T>>)
    requires AbleThroughout(x, b) && forall i :: 0 <= i < |a| ==> !a[i].Select?
    ensures AbleThroughout(x, a + b)
  {
  }
}
