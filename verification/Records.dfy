/** From sessions to the database: the share rows of every client, through the upload queue. */
module Records {
  import opened Bytes
  import opened Blocks
  import opened Work
  import opened Stratum
  import opened Runs
  import opened Accounting
  import opened Pool
  import Limiting
  import Delivery

  type Row = Delivery.Share

  /** The row a handler pushes for an output. A solution's row goes to the database at once. */
  function RowFor(host: U32, now: nat, o: Output): seq<Row> {
    match o
    case Rejected(user, reason, diff) => [Delivery.Share(host, user, false, reason, now, diff)]
    case Credited(user, credit, solution) =>
      if solution then [] else [Delivery.Share(host, user, true, "", now, credit.diff)]
    case _ => []
  }

  function RowsFor(host: U32, now: nat, outs: seq<Output>): seq<Row> {
    if outs == [] then []
    else RowsFor(host, now, outs[..|outs| - 1]) + RowFor(host, now, outs[|outs| - 1])
  }

  /** Every row a run pushes, in order. */
  ghost function RunRows(
      H: HashFn, c: Limiting.Config, s: Session, clock: nat, host: U32, inputs: seq<Input>): seq<Row>
    requires Inv(c, s, clock) && InputsOk(clock, inputs)
    decreases inputs
  {
    if inputs == [] then []
    else
      RunHead(H, c, s, clock, inputs);
      var (s1, out) := Step(H, c, s, inputs[0]);
      RowsFor(host, inputs[0].now, out) + RunRows(H, c, s1, inputs[0].now, host, inputs[1..])
  }

  /** Rows with our_result 0. */
  function BadRows(rows: seq<Row>): nat {
    if rows == [] then 0
    else (if rows[|rows| - 1].result then 0 else 1) + BadRows(rows[..|rows| - 1])
  }

  lemma {:induction false} BadRowsConcat(a: seq<Row>, b: seq<Row>)
    ensures BadRows(a + b) == BadRows(a) + BadRows(b)
  {
    if b == [] {
      assert a + b == a;
    } else {
      BadRowsConcat(a, b[..|b| - 1]);
      assert (a + b)[..|a + b| - 1] == a + b[..|b| - 1];
    }
  }

  lemma {:induction false} BadRowsFor(host: U32, now: nat, outs: seq<Output>)
    ensures BadRows(RowsFor(host, now, outs)) == Rejections(outs)
  {
    if outs != [] {
      var o := outs[|outs| - 1];
      BadRowsFor(host, now, outs[..|outs| - 1]);
      BadRowsConcat(RowsFor(host, now, outs[..|outs| - 1]), RowFor(host, now, o));
      OneBadRow(host, now, o);
    }
  }

  lemma OneBadRow(host: U32, now: nat, o: Output)
    ensures BadRows(RowFor(host, now, o)) == if o.Rejected? then 1 else 0
  {
    assert BadRows([]) == 0;
    if RowFor(host, now, o) != [] {
      assert RowFor(host, now, o)[..0] == [];
    }
  }

  lemma {:induction false} BadRowsOfRun(
      H: HashFn, c: Limiting.Config, s: Session, clock: nat, host: U32, inputs: seq<Input>)
    requires Inv(c, s, clock) && InputsOk(clock, inputs)
    ensures BadRows(RunRows(H, c, s, clock, host, inputs)) == Rejections(Run(H, c, s, clock, inputs).1)
    decreases inputs
  {
    hide Inv, TemplateOk, Step, Run, BadRows, Rejections, RowsFor;
    if inputs == [] {
      EmptyRun(H, c, s, clock);
      BadRowsFor(host, 0, []);
      NoRowsFor(host);
    } else {
      RunHead(H, c, s, clock, inputs);
      var (s1, out) := Step(H, c, s, inputs[0]);
      BadRowsFor(host, inputs[0].now, out);
      BadRowsOfRun(H, c, s1, inputs[0].now, host, inputs[1..]);
      BadRowsConcat(RowsFor(host, inputs[0].now, out), RunRows(H, c, s1, inputs[0].now, host, inputs[1..]));
      RejectionsConcat(out, Run(H, c, s1, inputs[0].now, inputs[1..]).1);
    }
  }

  lemma NoRowsFor(host: U32)
    ensures RowsFor(host, 0, []) == []
  {
  }

  // ---------------------------------------------------------------- the work paid for

  /** The difficulties of the rows with our_result 1, added up. */
  function GoodWeight(rows: seq<Row>): nat {
    if rows == [] then 0
    else (if rows[|rows| - 1].result then rows[|rows| - 1].diff else 0) + GoodWeight(rows[..|rows| - 1])
  }

  /** The difficulties of the credits that are not for solutions, added up. */
  function PlainWeight(outs: seq<Output>): nat {
    if outs == [] then 0
    else
      var o := outs[|outs| - 1];
      (if o.Credited? && !o.solution then o.credit.diff else 0) + PlainWeight(outs[..|outs| - 1])
  }

  lemma {:induction false} GoodWeightConcat(a: seq<Row>, b: seq<Row>)
    ensures GoodWeight(a + b) == GoodWeight(a) + GoodWeight(b)
  {
    if b == [] {
      assert a + b == a;
    } else {
      GoodWeightConcat(a, b[..|b| - 1]);
      assert (a + b)[..|a + b| - 1] == a + b[..|b| - 1];
    }
  }

  lemma {:induction false} PlainWeightConcat(a: seq<Output>, b: seq<Output>)
    ensures PlainWeight(a + b) == PlainWeight(a) + PlainWeight(b)
  {
    if b == [] {
      assert a + b == a;
    } else {
      PlainWeightConcat(a, b[..|b| - 1]);
      assert (a + b)[..|a + b| - 1] == a + b[..|b| - 1];
    }
  }

  lemma {:induction false} GoodWeightFor(host: U32, now: nat, outs: seq<Output>)
    ensures GoodWeight(RowsFor(host, now, outs)) == PlainWeight(outs)
    ensures forall r :: r in RowsFor(host, now, outs) ==> r.host == host && r.time == now
  {
    if outs != [] {
      var o := outs[|outs| - 1];
      GoodWeightFor(host, now, outs[..|outs| - 1]);
      GoodWeightConcat(RowsFor(host, now, outs[..|outs| - 1]), RowFor(host, now, o));
      OneGoodRow(host, now, o);
    }
  }

  lemma OneGoodRow(host: U32, now: nat, o: Output)
    ensures GoodWeight(RowFor(host, now, o)) == if o.Credited? && !o.solution then o.credit.diff else 0
  {
    assert GoodWeight([]) == 0;
    if RowFor(host, now, o) != [] {
      assert RowFor(host, now, o)[..0] == [];
    }
  }

  /** The rows a run pushes with our_result 1 weigh what it credits, but for the solutions, which go another way. */
  lemma {:induction false} GoodRowsOfRun(
      H: HashFn, c: Limiting.Config, s: Session, clock: nat, host: U32, inputs: seq<Input>)
    requires Inv(c, s, clock) && InputsOk(clock, inputs)
    ensures GoodWeight(RunRows(H, c, s, clock, host, inputs)) == PlainWeight(Run(H, c, s, clock, inputs).1)
    ensures forall r :: r in RunRows(H, c, s, clock, host, inputs) ==> r.host == host
    decreases inputs
  {
    hide Inv, TemplateOk, Step, Run, GoodWeight, PlainWeight, RowsFor;
    if inputs == [] {
      EmptyRun(H, c, s, clock);
      GoodWeightFor(host, 0, []);
      NoRowsFor(host);
    } else {
      RunHead(H, c, s, clock, inputs);
      var (s1, out) := Step(H, c, s, inputs[0]);
      GoodWeightFor(host, inputs[0].now, out);
      GoodRowsOfRun(H, c, s1, inputs[0].now, host, inputs[1..]);
      GoodWeightConcat(RowsFor(host, inputs[0].now, out), RunRows(H, c, s1, inputs[0].now, host, inputs[1..]));
      PlainWeightConcat(out, Run(H, c, s1, inputs[0].now, inputs[1..]).1);
    }
  }

  // ---------------------------------------------------------------- many clients, one queue

  /** The rows that came from client k, in order; owner[p] is the client of row p. */
  function From(k: nat, rows: seq<Row>, owner: seq<nat>): seq<Row>
    requires |rows| == |owner|
  {
    if rows == [] then []
    else
      var n := |rows| - 1;
      From(k, rows[..n], owner[..n]) + if owner[n] == k then [rows[n]] else []
  }

  ghost function ClientRows(H: HashFn, k: Connection, host: U32): seq<Row>
    requires Live(k)
  {
    RunRows(H, k.c, Start(k), k.now, host, k.inputs)
  }

  /** The pushes are some interleaving of the clients' rows. */
  ghost predicate Interleaves(
      H: HashFn, clients: seq<Connection>, hosts: seq<U32>, pushes: seq<Row>, owner: seq<nat>)
    requires |hosts| == |clients| && |owner| == |pushes|
  {
    forall k :: 0 <= k < |clients| ==> Live(clients[k]) && From(k, pushes, owner) == ClientRows(H, clients[k], hosts[k])
  }

  /** Every row in the order it will reach the database: queries sent, the query being built, the deque. */
  function Pipeline(s: Delivery.State): seq<Row> {
    Delivery.AllRows(s.sent) + Delivery.RowsOf(s.query) + s.store
  }

  /** Any number of clients, pushing in any interleaving with each other and with the uploader: each client's rows
      are in the pipeline exactly once and in the order its handlers pushed them, as many of them are rejections as
      its limiter has counted bad shares, and the others weigh what it was credited, solutions apart. */
  lemma RowsDelivered(H: HashFn, clients: seq<Connection>, hosts: seq<U32>, min: nat, bulk: nat,
                      actions: seq<Delivery.Action>, owner: seq<nat>)
    requires bulk >= 1 && |hosts| == |clients| && |owner| == |Delivery.Pushes(actions)|
    requires Interleaves(H, clients, hosts, Delivery.Pushes(actions), owner)
    ensures
      var rows := Pipeline(Delivery.Exec(min, bulk, Delivery.Empty(), actions));
      && |rows| == |owner|
      && forall k :: 0 <= k < |clients| ==>
           && Live(clients[k]) && From(k, rows, owner) == ClientRows(H, clients[k], hosts[k])
           && var (r, out) := Run(H, clients[k].c, Start(clients[k]), clients[k].now, clients[k].inputs);
              BadRows(From(k, rows, owner)) == r.limiter.bad && GoodWeight(From(k, rows, owner)) == PlainWeight(out)
  {
    hide Delivery.Exec, Delivery.Pushes, Delivery.AllRows, Delivery.RowsOf, Delivery.Inv, From, ClientRows, BadRows,
         Run, Start, InputsOk, GoodWeight, PlainWeight;
    Delivery.Delivered(min, bulk, actions);
    forall k | 0 <= k < |clients|
      ensures Live(clients[k])
      ensures
        var (r, out) := Run(H, clients[k].c, Start(clients[k]), clients[k].now, clients[k].inputs);
        && BadRows(ClientRows(H, clients[k], hosts[k])) == r.limiter.bad
        && GoodWeight(ClientRows(H, clients[k], hosts[k])) == PlainWeight(out)
    {
      BadRowsAreCounted(H, clients[k], hosts[k]);
    }
  }

  lemma BadRowsAreCounted(H: HashFn, k: Connection, host: U32)
    requires Live(k)
    ensures BadRows(ClientRows(H, k, host)) == Run(H, k.c, Start(k), k.now, k.inputs).0.limiter.bad
    ensures GoodWeight(ClientRows(H, k, host)) == PlainWeight(Run(H, k.c, Start(k), k.now, k.inputs).1)
  {
    hide Inv, InputsOk, Limiting.ConfigOk, Run, RunRows, BadRows, Rejections, RunFound, GoodWeight, PlainWeight;
    GoodRowsOfRun(H, k.c, Start(k), k.now, host, k.inputs);
    BadRowsOfRun(H, k.c, Start(k), k.now, host, k.inputs);
    CountersExact(H, k.c, Start(k), k.now, k.inputs);
  }
}
