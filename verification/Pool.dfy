/**
 The connection pool: one live connection, and a round over the endpoints when it fails.
 */
module Pool {
  import opened Options

  /** What the network does in one turn of the loop. */
  datatype Turn = Turn(connects: bool, answer: Answer)

  datatype Answer = Reply(ret: int) | Fails(err: int)

  datatype EvalResult = Ok(ret: int) | EvalFailed(err: int) | FailedToConnect

  class Connection {
    const endpoint: nat
    var open: bool

    constructor (endpoint: nat)
      ensures this.endpoint == endpoint && open
    {
      this.endpoint, open := endpoint, true;
    }
  }

  /** The endpoint of the `i`-th turn of a round that begins at `start`. */
  function Around(start: nat, i: nat, n: nat): nat
    requires start < n && i <= n
  {
    if start + i < n then start + i else start + i - n
  }

  lemma NextIndex(x: nat, n: nat)
    requires x < n
    ensures (x + 1) % n == if x + 1 == n then 0 else x + 1
  {
    if x + 1 == n {
      assert n % n == 0;
    }
  }

  /** A full round meets endpoint `e` in exactly one turn, and ends where it began. */
  lemma AroundIsRound(start: nat, n: nat, e: nat)
    requires start < n && e < n
    ensures exists i :: 0 <= i < n && Around(start, i, n) == e
                        && forall j :: 0 <= j < n && j != i ==> Around(start, j, n) != e
    ensures Around(start, n, n) == start
  {
    var i := if start <= e then e - start else e - start + n;
    assert Around(start, i, n) == e;
  }

  /** In turn `i` a request is sent: to the connection that was live at the start, or a new one. */
  predicate Asked(world: nat -> Turn, live: bool, i: nat) {
    (live && i == 0) || world(i).connects
  }

  /** The error of the last request that was sent in the first `n` turns. */
  function LastError(world: nat -> Turn, live: bool, n: nat): Option<int> {
    if n == 0 then None
    else if Asked(world, live, n - 1) && world(n - 1).answer.Fails? then Some(world(n - 1).answer.err)
    else LastError(world, live, n - 1)
  }

  /** Turn `i` is the last of `n` in which a request was sent and failed, with this error. */
  ghost predicate LastFailure(world: nat -> Turn, live: bool, n: nat, i: nat, e: int) {
    && i < n && ((live && i == 0) || world(i).connects) && world(i).answer == Fails(e)
    && forall j: nat :: i < j < n ==> !(world(j).connects && world(j).answer.Fails?)
  }

  /** The error is that of the last request that failed; there is none when no request did. */
  lemma {:induction false} LastErrorIs(world: nat -> Turn, live: bool, n: nat) returns (i: nat)
    ensures LastError(world, live, n).None? ==>
      forall j: nat :: j < n ==> !(((live && j == 0) || world(j).connects) && world(j).answer.Fails?)
    ensures LastError(world, live, n).Some? ==> LastFailure(world, live, n, i, LastError(world, live, n).value)
  {
    i := 0;
    if n > 0 {
      i := LastErrorIs(world, live, n - 1);
      if Asked(world, live, n - 1) && world(n - 1).answer.Fails? { i := n - 1; }
    }
  }

  class Pool {
    const size: nat                      // number of endpoints
    var current: Connection?
    var currentIndex: nat
    ghost var made: set<Connection>    // every connection the pool has made

    /** The index is in range, the current connection belongs to it, all others are closed. */
    ghost predicate Valid()
      reads this, made
    {
      && currentIndex < size
      && (current != null ==> current in made && current.endpoint == currentIndex)
      && forall c :: c in made && c.open ==> c == current
    }

    /** The current connection, if there is one, is open; only `Close` ends this. */
    ghost predicate Live()
      reads this, current
    {
      current != null ==> current.open
    }

    /** The object that `ConnectPool` builds around its first connection. */
    constructor Connected(size: nat, index: nat, conn: Connection, ghost others: set<Connection>)
      requires index < size && conn.open && conn.endpoint == index
      requires forall c :: c in others ==> !c.open
      ensures Valid() && Live() && this.size == size && currentIndex == index
      ensures current == conn && made == others + {conn}
    {
      this.size, current, currentIndex, made := size, conn, index, others + {conn};
    }

    /** A new connection to the current endpoint. */
    method Connect()
      requires Valid() && current == null
      modifies this
      ensures Valid() && current != null && current.open && fresh(current)
      ensures currentIndex == old(currentIndex) && fresh(made - old(made))
      ensures made == old(made) + {current}
    {
      current := new Connection(currentIndex);
      made := made + {current};
    }

    /** Close a connection that failed and turn to the next endpoint. */
    method Fail()
      requires Valid()
      modifies this, made
      ensures Valid() && current == null && made == old(made)
      ensures currentIndex == if old(currentIndex) + 1 == size then 0 else old(currentIndex) + 1
    {
      if current != null {
        current.open := false;
        current := null;
      }
      NextIndex(currentIndex, size);
      currentIndex := (currentIndex + 1) % size;
    }

    /** `Eval` */
    method Eval(world: nat -> Turn) returns (r: EvalResult, ghost tried: seq<nat>)
      requires Valid()
      modifies this, made
      ensures Valid() && fresh(made - old(made))
      ensures Live() || (!old(Live()) && r.Ok? && |tried| == 1 && current == old(current))
      ensures |tried| <= size && forall i :: 0 <= i < |tried| ==> tried[i] == Around(old(currentIndex), i, size)
      ensures forall i: nat :: i + 1 < |tried| ==>
        !(((old(current != null) && i == 0) || world(i).connects) && world(i).answer.Reply?)
      ensures r.Ok? ==>
        && tried != [] && current != null && currentIndex == tried[|tried| - 1]
        && ((old(current != null) && |tried| == 1) || world(|tried| - 1).connects)
        && world(|tried| - 1).answer == Reply(r.ret)
      ensures !r.Ok? ==>
        && |tried| == size && current == null && currentIndex == old(currentIndex)
        && !(((old(current != null) && size == 1) || world(size - 1).connects) && world(size - 1).answer.Reply?)
      ensures !r.Ok? ==>
        r == match LastError(world, old(current != null), size)
             case None => FailedToConnect
             case Some(e) => EvalFailed(e)
    {
      ghost var start, live := currentIndex, current != null;
      var err: Option<int> := None;
      tried := [];
      var i := 0;
      while i < size
        invariant 0 <= i <= size && Valid() && fresh(made - old(made))
        invariant |tried| == i && forall j :: 0 <= j < i ==> tried[j] == Around(start, j, size)
        invariant currentIndex == Around(start, i, size)
        invariant (current != null) == (live && i == 0)
        invariant i == 0 ==> current == old(current) && (current != null ==> current.open == old(current.open))
        invariant forall j: nat :: j < i ==> !(Asked(world, live, j) && world(j).answer.Reply?)
        invariant err == LastError(world, live, i)
      {
        tried := tried + [currentIndex];
        if current == null && world(i).connects { Connect(); }
        if current != null {
          match world(i).answer {
            case Reply(ret) =>
              r := Ok(ret);
              return;
            case Fails(e) =>
              err := Some(e);
          }
        }
        Fail();
        i := i + 1;
      }
      r := match err case None => FailedToConnect case Some(e) => EvalFailed(e);
    }

    /** `Close`: no connection of the pool is open, and the pool can still be used: the next
        `Eval` asks the closed connection first. */
    method Close()
      requires Valid()
      modifies current
      ensures Valid() && current == old(current) && currentIndex == old(currentIndex) && made == old(made)
      ensures forall c :: c in made ==> !c.open
    {
      if current != null {
        current.open := false;
      }
    }
  }

  /** `ConnectPool`: the first endpoint that can be connected, or an error when none can. */
  method ConnectPool(size: nat, connects: nat -> bool) returns (pool: Pool?)
    ensures pool == null <==> forall i: nat :: i < size ==> !connects(i)
    ensures pool != null ==>
      && fresh(pool) && fresh(pool.made) && pool.Valid() && pool.Live() && pool.size == size && pool.current != null
      && connects(pool.currentIndex) && forall i: nat :: i < pool.currentIndex ==> !connects(i)
  {
    pool := null;
    for i := 0 to size
      invariant pool == null && forall j: nat :: j < i ==> !connects(j)
    {
      if connects(i) {
        var conn := new Connection(i);
        pool := new Pool.Connected(size, i, conn, {});
        return;
      }
    }
  }

  /** After `Close` the next `Eval` asks the closed connection first: its error comes back although
      no endpoint can be connected any more. */
  method ClosedIsAsked() returns (r: EvalResult)
    ensures r == EvalFailed(7)
  {
    var connects: nat -> bool := _ => true;
    assert connects(0);
    var pool := ConnectPool(1, connects);
    pool.Close();
    var world: nat -> Turn := _ => Turn(false, Fails(7));
    ghost var tried;
    r, tried := pool.Eval(world);
    assert LastError(world, true, 1) == Some(7);
  }
}
