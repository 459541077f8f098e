/**
 * The connection pool of common/pool.go: a bounded FIFO of connections
 * created up front, borrowed with Get (which renews a connection whose
 * ping fails), returned with Put, and drained and closed by Close. The
 * driver is not modelled; a driver session is a record of what was sent
 * on it, and whether a dial, a ping or a statement succeeds is supplied
 * by the caller.
 */
module Pool {
  import opened Text

  /** A driver session: the server and account it was dialled with, the
      statements sent on it, in order, and whether it has been closed. */
  datatype Client = Client(address: string, user: string, password: string,
                           issued: seq<string>, closed: bool)

  /** A fresh session as a successful dial produces it. */
  function Dialled(address: string, user: string, password: string): Client
  {
    Client(address, user, password, [], false)
  }

  // ------------------------------------------------------ session variables

  /** The statements that set the session variables: none for an empty
      string, else the `;`-separated pieces, a trailing empty one included. */
  function SessionPieces(vars: string): (pieces: seq<string>)
    ensures vars == "" ==> pieces == []
    ensures vars != "" ==> |pieces| >= 1 && Join(pieces, ";") == vars
    ensures forall k | 0 <= k < |pieces| :: ';' !in pieces[k]
  {
    if vars == "" then []
    else
      var pieces := Split(vars, ";");
      JoinSplit(vars, ";");
      SplitPiecesFree(vars, ";");
      forall k | 0 <= k < |pieces| ensures ';' !in pieces[k] {
        assert pieces[k] in pieces;
        FreeChar(pieces[k], ';');
      }
      pieces
  }

  /** A variable string that ends in `;` yields an empty last statement,
      which is sent like any other. */
  lemma SessionPiecesTrailingEmpty(vars: string)
    requires vars != "" && vars[|vars| - 1] == ';'
    ensures var pieces := SessionPieces(vars);
      |pieces| >= 2 && pieces[|pieces| - 1] == ""
  {
    var pieces := SessionPieces(vars);
    if |pieces| > 1 {
      var last := pieces[|pieces| - 1];
      JoinAppend(pieces[..|pieces| - 1], last, ";");
      assert pieces == pieces[..|pieces| - 1] + [last];
    }
  }

  /** The position of the first statement that fails, or the number of
      statements when none does. */
  function FirstFailure(pieces: seq<string>, ok: string -> bool): (k: nat)
    ensures k <= |pieces|
    ensures forall i | 0 <= i < k :: ok(pieces[i])
    ensures k < |pieces| ==> !ok(pieces[k])
    decreases |pieces|
  {
    if pieces == [] then 0
    else if !ok(pieces[0]) then 0
    else 1 + FirstFailure(pieces[1..], ok)
  }

  /** The statements sent: every piece up to and including the first that
      fails. */
  function Sent(pieces: seq<string>, ok: string -> bool): seq<string>
  {
    var k := FirstFailure(pieces, ok);
    if k < |pieces| then pieces[..k + 1] else pieces
  }

  /** Every statement succeeded exactly when all of them were sent and the
      last one sent did not fail. */
  lemma SentAll(pieces: seq<string>, ok: string -> bool)
    ensures FirstFailure(pieces, ok) == |pieces| <==> forall i | 0 <= i < |pieces| :: ok(pieces[i])
    ensures FirstFailure(pieces, ok) == |pieces| ==> Sent(pieces, ok) == pieces
    ensures FirstFailure(pieces, ok) < |pieces| ==>
      |Sent(pieces, ok)| >= 1 && !ok(Sent(pieces, ok)[|Sent(pieces, ok)| - 1])
  {
  }

  // ------------------------------------------------------------ connections

  /** A pooled connection: its identity never changes; only its session
      is replaced. */
  class Connection {
    const id: int
    const address: string
    const user: string
    const password: string
    const vars: string
    var client: Client

    constructor (id: int, client: Client, address: string, user: string, password: string, vars: string)
      ensures this.id == id && this.client == client
      ensures this.address == address && this.user == user
      ensures this.password == password && this.vars == vars
    {
      this.id, this.client := id, client;
      this.address, this.user, this.password, this.vars := address, user, password, vars;
    }

    /** Execute: the statement is sent on the session; `ok` is the
        server's verdict, and the result is the error. */
    method Execute(query: string, ok: bool) returns (failed: bool)
      modifies this
      ensures client == old(client).(issued := old(client).issued + [query])
      ensures failed == !ok
    {
      client := client.(issued := client.issued + [query]);
      failed := !ok;
    }

    /** The loop over the session-variable statements: each is executed in
        turn and the first failure stops it. */
    method ApplyVars(execOk: string -> bool) returns (ok: bool)
      modifies this
      ensures client == old(client).(issued := old(client).issued + Sent(SessionPieces(vars), execOk))
      ensures ok <==> FirstFailure(SessionPieces(vars), execOk) == |SessionPieces(vars)|
    {
      var pieces := SessionPieces(vars);
      ghost var start := client;
      var k := 0;
      while k < |pieces|
        invariant k <= |pieces| && k <= FirstFailure(pieces, execOk)
        invariant client == start.(issued := start.issued + pieces[..k])
      {
        var q := pieces[k];
        ghost var issued := start.issued + pieces[..k + 1];
        assert issued == client.issued + [q] by {
          assert pieces[..k + 1] == pieces[..k] + [q];
        }
        var failed := Execute(q, execOk(q));
        if failed {
          assert FirstFailure(pieces, execOk) == k;
          assert Sent(pieces, execOk) == pieces[..k + 1];
          return false;
        }
        k := k + 1;
      }
      assert pieces[..k] == pieces;
      assert Sent(pieces, execOk) == pieces;
      ok := true;
    }
  }

  // ------------------------------------------------------------ accounting

  /** The identifiers of a sequence of connections. */
  function Ids(queue: seq<Connection>): (ids: set<int>)
    ensures forall i | 0 <= i < |queue| :: queue[i].id in ids
    ensures forall x | x in ids :: exists i | 0 <= i < |queue| :: queue[i].id == x
    decreases |queue|
  {
    if queue == [] then {}
    else
      var init := queue[..|queue| - 1];
      var ids' := Ids(init);
      assert forall i | 0 <= i < |init| :: queue[i] == init[i];
      ids' + {queue[|queue| - 1].id}
  }

  function IdRange(n: nat): (r: set<int>)
    ensures forall x :: x in r <==> 0 <= x < n
    ensures |r| == n
  {
    if n == 0 then {}
    else
      var r' := IdRange(n - 1);
      assert n - 1 !in r';
      r' + {n - 1}
  }

  predicate DistinctIds(queue: seq<Connection>)
  {
    forall i, j | 0 <= i < j < |queue| :: queue[i].id != queue[j].id
  }

  /** The accounting of a pool that `all` was created with: every queued
      connection is the one created with its identifier, no identifier is
      queued twice, and the queued and the borrowed identifiers split
      0..cap-1 between them. */
  ghost predicate Accounts(all: seq<Connection>, queue: seq<Connection>, out: set<int>)
  {
    && (forall k | 0 <= k < |all| :: all[k].id == k)
    && (forall c | c in queue :: 0 <= c.id < |all| && all[c.id] == c)
    && DistinctIds(queue)
    && Ids(queue) !! out
    && Ids(queue) + out == IdRange(|all|)
  }

  lemma {:induction false} DistinctIdsCount(queue: seq<Connection>)
    requires DistinctIds(queue)
    ensures |Ids(queue)| == |queue|
    decreases |queue|
  {
    if queue != [] {
      var init := queue[..|queue| - 1];
      assert DistinctIds(init) by {
        forall i, j | 0 <= i < j < |init| ensures init[i].id != init[j].id {
          assert init[i] == queue[i] && init[j] == queue[j];
        }
      }
      DistinctIdsCount(init);
    }
  }

  /** The queued and the borrowed connections together number exactly the
      capacity; so a returned connection always finds room. */
  lemma AccountsCount(all: seq<Connection>, queue: seq<Connection>, out: set<int>)
    requires Accounts(all, queue, out)
    ensures |queue| + |out| == |all|
    ensures forall x | x in out :: 0 <= x < |all|
  {
    DistinctIdsCount(queue);
    assert |Ids(queue) + out| == |Ids(queue)| + |out|;
  }

  /** The pool as created: each connection in identifier order, none out. */
  lemma AccountsFresh(all: seq<Connection>)
    requires forall k | 0 <= k < |all| :: all[k].id == k
    ensures Accounts(all, all, {})
  {
    FreshIds(all);
    forall c | c in all ensures 0 <= c.id < |all| && all[c.id] == c {
      var k :| 0 <= k < |all| && all[k] == c;
    }
    assert DistinctIds(all);
  }

  lemma FreshIds(all: seq<Connection>)
    requires forall k | 0 <= k < |all| :: all[k].id == k
    ensures Ids(all) + {} == IdRange(|all|)
  {
    var ids, range := Ids(all), IdRange(|all|);
    forall x | x in range ensures x in ids {
      assert all[x].id == x;
    }
    forall x | x in ids ensures x in range {
      var i :| 0 <= i < |all| && all[i].id == x;
    }
    assert ids == range;
    assert ids + {} == ids;
  }

  /** Taking the front connection moves its identifier to the borrowed
      side. */
  lemma AccountsTake(all: seq<Connection>, queue: seq<Connection>, out: set<int>)
    requires Accounts(all, queue, out) && queue != []
    ensures queue[0].id !in out
    ensures Accounts(all, queue[1..], out + {queue[0].id})
  {
    var rest, c := queue[1..], queue[0];
    IdsTail(queue);
    DistinctIdsTail(queue);
    assert c.id in Ids(queue);
    MoveOne(Ids(queue), Ids(rest), out, c.id);
    assert forall c | c in rest :: c in queue;
  }

  lemma DistinctIdsTail(queue: seq<Connection>)
    requires DistinctIds(queue) && queue != []
    ensures DistinctIds(queue[1..]) && queue[0].id !in Ids(queue[1..])
  {
    var rest := queue[1..];
    forall i, j | 0 <= i < j < |rest| ensures rest[i].id != rest[j].id {
      assert rest[i] == queue[i + 1] && rest[j] == queue[j + 1];
    }
    forall i | 0 <= i < |rest| ensures rest[i].id != queue[0].id {
      assert rest[i] == queue[i + 1];
    }
  }

  lemma MoveOne(whole: set<int>, part: set<int>, other: set<int>, x: int)
    requires whole == part + {x}
    ensures part + (other + {x}) == whole + other
  {
  }

  lemma IdsTail(queue: seq<Connection>)
    requires queue != []
    ensures Ids(queue) == Ids(queue[1..]) + {queue[0].id}
  {
    var rest := queue[1..];
    forall x | x in Ids(queue) ensures x in Ids(rest) + {queue[0].id} {
      var i :| 0 <= i < |queue| && queue[i].id == x;
      if i > 0 {
        assert rest[i - 1].id == x;
      }
    }
    forall x | x in Ids(rest) ensures x in Ids(queue) {
      var i :| 0 <= i < |rest| && rest[i].id == x;
      assert queue[i + 1].id == x;
    }
  }

  /** Returning a borrowed connection, the one created with its identifier,
      moves its identifier back to the queue. */
  lemma AccountsGiveBack(all: seq<Connection>, queue: seq<Connection>, out: set<int>, c: Connection)
    requires Accounts(all, queue, out)
    requires c.id in out && 0 <= c.id < |all| && all[c.id] == c
    ensures Accounts(all, queue + [c], out - {c.id})
  {
    var q := queue + [c];
    assert q[..|q| - 1] == queue;
    assert Ids(q) == Ids(queue) + {c.id};
    assert DistinctIds(q) by {
      forall i, j | 0 <= i < j < |q| ensures q[i].id != q[j].id {
        assert q[i] == queue[i];
        if j == |queue| {
          assert queue[i].id in Ids(queue);
        } else {
          assert q[j] == queue[j];
        }
      }
    }
    assert forall d | d in q :: d in queue || d == c;
    MoveBack(Ids(queue), out, c.id);
  }

  lemma MoveBack(part: set<int>, other: set<int>, x: int)
    requires part !! other && x in other
    ensures part + {x} !! other - {x}
    ensures (part + {x}) + (other - {x}) == part + other
  {
  }

  // ------------------------------------------------------------------- pool

  class Pool {
    /** The capacity of the queue. */
    const cap: nat
    /** The queue; once closed the channel is gone (`closed`) and the
        queue is empty. */
    var conns: seq<Connection>
    var closed: bool
    /** The connections created, by identifier. */
    ghost const all: seq<Connection>
    /** The identifiers currently borrowed. */
    ghost var borrowed: set<int>

    ghost predicate Valid()
      reads this
    {
      (closed ==> conns == []) && |conns| <= cap && |all| == cap
    }

    /** While the pool is open, the accounting holds. */
    ghost predicate Accounted()
      reads this
    {
      !closed ==> Accounts(all, conns, borrowed)
    }

    constructor (cap: nat, conns: seq<Connection>)
      requires |conns| == cap
      ensures this.cap == cap && this.conns == conns && all == conns
      ensures !closed && borrowed == {}
    {
      this.cap, this.conns, this.all := cap, conns, conns;
      closed, borrowed := false, {};
    }

    /** getConns: the queue, or none once the pool is closed. */
    function Queue(): (q: Option<seq<Connection>>)
      reads this
      ensures q.None? <==> closed
      ensures q.Some? ==> q.value == conns
    {
      if closed then None else Some(conns)
    }

    /** Get: none once closed; else the front connection, removed from the
        queue. A connection whose ping fails has its session closed and
        replaced by a new one to the same server and account, on which the
        session variables are set again; a failure there panics. */
    method Get(pingOk: bool, dialOk: bool, execOk: string -> bool) returns (conn: Connection?, panicked: bool)
      requires Valid()
      requires closed || conns != []
      modifies this, if conns == [] then {} else {conns[0]}
      ensures Valid()
      ensures old(closed) ==> conn == null && !panicked && unchanged(this)
      ensures !old(closed) ==>
        && conn == old(conns[0]) && conns == old(conns[1..]) && !closed
        && borrowed == old(borrowed) + {conn.id}
      ensures !old(closed) && pingOk ==> conn.client == old(conn.client) && !panicked
      ensures !old(closed) && !pingOk && !dialOk ==>
        panicked && conn.client == old(conn.client).(closed := true)
      ensures !old(closed) && !pingOk && dialOk ==>
        var pieces := SessionPieces(conn.vars);
        && conn.client == Dialled(conn.address, conn.user, conn.password).(issued := Sent(pieces, execOk))
        && (panicked <==> FirstFailure(pieces, execOk) < |pieces|)
      ensures old(Accounted()) ==> Accounted()
    {
      var q := Queue();
      if q.None? {
        return null, false;
      }
      ghost var before := conns;
      if !closed {
        AccountsHold(before);
      }
      conn := conns[0];
      conns := conns[1..];
      borrowed := borrowed + {conn.id};
      panicked := false;
      if !pingOk {
        if !conn.client.closed {
          conn.client := conn.client.(closed := true);
        }
        if !dialOk {
          return conn, true;
        }
        conn.client := Dialled(conn.address, conn.user, conn.password);
        var ok := conn.ApplyVars(execOk);
        panicked := !ok;
      }
    }

    /** The accounting step of Get, stated on the queue before the take. */
    lemma AccountsHold(before: seq<Connection>)
      requires before == conns && before != [] && !closed
      ensures Accounts(all, before, borrowed) ==> Accounts(all, before[1..], borrowed + {before[0].id})
    {
      if Accounts(all, before, borrowed) {
        AccountsTake(all, before, borrowed);
      }
    }

    /** Put: nothing once closed; else the connection joins the back of
        the queue (a full queue would block the caller). */
    method Put(conn: Connection)
      requires Valid()
      requires closed || |conns| < cap
      modifies this
      ensures Valid()
      ensures old(closed) ==> unchanged(this)
      ensures !old(closed) ==>
        conns == old(conns) + [conn] && !closed && borrowed == old(borrowed) - {conn.id}
      ensures old(Accounted()) && conn.id in old(borrowed) && 0 <= conn.id < cap && all[conn.id] == conn
        ==> Accounted()
    {
      if Queue().None? {
        return;
      }
      AccountsReturn(conns, conn);
      conns := conns + [conn];
      borrowed := borrowed - {conn.id};
    }

    /** The accounting step of Put, stated on the queue before the return. */
    lemma AccountsReturn(before: seq<Connection>, conn: Connection)
      requires before == conns && |all| == cap
      ensures Accounts(all, before, borrowed) && conn.id in borrowed && 0 <= conn.id < cap && all[conn.id] == conn
        ==> Accounts(all, before + [conn], borrowed - {conn.id})
    {
      if Accounts(all, before, borrowed) && conn.id in borrowed && 0 <= conn.id < cap && all[conn.id] == conn {
        AccountsGiveBack(all, before, borrowed, conn);
      }
    }

    /** Close: closes the channel (a second close panics), closes the
        session of every connection still queued, and drops the queue.
        Borrowed connections keep their sessions. */
    method Close() returns (panicked: bool)
      requires Valid()
      modifies this, conns
      ensures Valid()
      ensures old(closed) ==> panicked && unchanged(this)
      ensures !old(closed) ==> !panicked && closed && conns == [] && borrowed == old(borrowed)
      ensures !old(closed) ==>
        forall c | c in old(conns) :: c.client == old(c.client).(closed := true)
    {
      if closed {
        return true;
      }
      var queue := conns;
      for k := 0 to |queue|
        invariant conns == queue && !closed && borrowed == old(borrowed)
        invariant forall i | 0 <= i < |queue| ::
          queue[i].client == if queue[i] in queue[..k] then old(queue[i].client).(closed := true)
                             else old(queue[i].client)
      {
        var c := queue[k];
        c.client := c.client.(closed := true);
        assert queue[..k + 1] == queue[..k] + [c];
      }
      assert queue[..|queue|] == queue;
      conns := [];
      closed := true;
      panicked := false;
    }
  }

  /** Whether NewPool gives up: some dial fails, or, when there is any
      connection at all, a session-variable statement fails. */
  predicate NewPoolFails(cap: nat, vars: string, dialOk: nat -> bool, execOk: string -> bool)
  {
    (exists i | 0 <= i < cap :: !dialOk(i))
    || (cap > 0 && FirstFailure(SessionPieces(vars), execOk) < |SessionPieces(vars)|)
  }

  /** NewPool: dials `cap` connections in turn, numbering them from 0 and
      setting the session variables on each; any failure abandons the
      pool. `dialOk(i)` is whether the i-th dial succeeds. */
  method NewPool(cap: nat, address: string, user: string, password: string, vars: string,
                 dialOk: nat -> bool, execOk: string -> bool)
    returns (p: Pool?)
    ensures p == null <==> NewPoolFails(cap, vars, dialOk, execOk)
    ensures p != null ==>
      && fresh(p) && p.Valid() && p.Accounted()
      && p.cap == cap && !p.closed && p.borrowed == {} && |p.conns| == cap
      && forall i | 0 <= i < cap ::
           && p.conns[i].id == i && p.conns[i].address == address
           && p.conns[i].user == user && p.conns[i].password == password
           && p.conns[i].vars == vars
           && p.conns[i].client == Dialled(address, user, password).(issued := SessionPieces(vars))
  {
    var conns: seq<Connection> := [];
    var pieces := SessionPieces(vars);
    SentAll(pieces, execOk);
    for i := 0 to cap
      invariant |conns| == i
      invariant forall j | 0 <= j < i :: dialOk(j)
      invariant i > 0 ==> FirstFailure(pieces, execOk) == |pieces|
      invariant forall j | 0 <= j < i ::
        && conns[j].id == j && conns[j].address == address
        && conns[j].user == user && conns[j].password == password && conns[j].vars == vars
        && conns[j].client == Dialled(address, user, password).(issued := pieces)
    {
      if !dialOk(i) {
        return null;
      }
      var conn := new Connection(i, Dialled(address, user, password), address, user, password, vars);
      var ok := conn.ApplyVars(execOk);
      if !ok {
        return null;
      }
      conns := conns + [conn];
    }
    p := new Pool(cap, conns);
    AccountsFresh(conns);
  }
}
