/** Share delivery: the upload loop as a state machine against arbitrary pushes, and the object itself. */
module Delivery {

  datatype Share = Share(host: nat, username: string, result: bool, reason: string, time: nat, diff: nat)

  /** The text after VALUES: rows and the commas between them. */
  datatype Token = Row(share: Share) | Comma
  type Query = seq<Token>

  /** Rows separated by single commas, no comma at either end. */
  function Joined(rows: seq<Share>): Query {
    if rows == [] then []
    else if |rows| == 1 then [Row(rows[0])]
    else Joined(rows[..|rows| - 1]) + [Comma, Row(rows[|rows| - 1])]
  }

  /** Rows at the even places, commas at the odd ones, a row at the end. */
  lemma {:induction false} JoinedShape(rows: seq<Share>, k: nat)
    requires rows != []
    ensures |Joined(rows)| == 2 * |rows| - 1
    ensures k < |rows| ==> Joined(rows)[2 * k] == Row(rows[k])
    ensures k + 1 < |rows| ==> Joined(rows)[2 * k + 1] == Comma
  {
    if |rows| > 1 {
      var init := rows[..|rows| - 1];
      JoinedShape(init, if k < |init| then k else 0);
    }
  }

  function RowsOf(q: Query): seq<Share> {
    if q == [] then []
    else
      var rest := RowsOf(q[..|q| - 1]);
      match q[|q| - 1]
      case Row(s) => rest + [s]
      case Comma => rest
  }

  function AllRows(qs: seq<Query>): seq<Share> {
    if qs == [] then [] else AllRows(qs[..|qs| - 1]) + RowsOf(qs[|qs| - 1])
  }

  /** A non-empty comma-separated list of at most `bulk` rows. */
  ghost predicate WellFormed(q: Query, bulk: nat) {
    var rows := RowsOf(q);
    1 <= |rows| <= bulk && q == Joined(rows)
  }

  lemma RowsSnoc(q: Query, t: Token)
    ensures RowsOf(q + [t]) == if t.Row? then RowsOf(q) + [t.share] else RowsOf(q)
  {
    assert (q + [t])[..|q|] == q;
  }

  lemma AllRowsSnoc(qs: seq<Query>, q: Query)
    ensures AllRows(qs + [q]) == AllRows(qs) + RowsOf(q)
  {
    assert (qs + [q])[..|qs|] == qs;
  }

  // ---------------------------------------------------------------- the query under construction

  /** Ready for a row: empty, or rows and a trailing comma. */
  ghost predicate Open(q: Query, i: nat) {
    |RowsOf(q)| == i && if i == 0 then q == [] else q == Joined(RowsOf(q)) + [Comma]
  }

  lemma AddRow(q: Query, i: nat, s: Share)
    requires Open(q, i)
    ensures RowsOf(q + [Row(s)]) == RowsOf(q) + [s]
    ensures WellFormed(q + [Row(s)], i + 1)
  {
    var rows := RowsOf(q);
    RowsSnoc(q, Row(s));
    assert (rows + [s])[..|rows|] == rows;
    if i > 0 {
      assert q + [Row(s)] == Joined(rows) + [Comma, Row(s)];
    }
  }

  lemma AddComma(q: Query, i: nat)
    requires WellFormed(q, i) && |RowsOf(q)| == i
    ensures Open(q + [Comma], i) && RowsOf(q + [Comma]) == RowsOf(q)
  {
    RowsSnoc(q, Comma);
  }

  // ---------------------------------------------------------------- the state machine

  /** Where the uploader is between two lock acquisitions. */
  datatype Pc = Idle | Looping | Popping(i: nat) | Sizing(i: nat) | Crashed

  /** The deque, the uploader, its query so far, the queries handed to the database, and every share ever pushed. */
  datatype State = State(store: seq<Share>, pc: Pc, query: Query, sent: seq<Query>, pushed: seq<Share>)

  datatype Action = Push(share: Share) | Timer | Advance

  /** One lock acquisition of the uploader and the code up to the next, or a push by another thread. */
  function Next(min: nat, bulk: nat, s: State, a: Action): State {
    match a
    case Push(x) => s.(store := s.store + [x], pushed := s.pushed + [x])
    case Timer => if s.pc.Idle? then s.(pc := Looping) else s
    case Advance =>
      match s.pc
      case Idle => s
      case Crashed => s
      case Looping =>
        if |s.store| <= min then s.(pc := Idle) else Turn(bulk, s.(query := []), 0)
      case Popping(i) =>
        if s.store == [] then s.(pc := Crashed)
        else s.(store := s.store[1..], query := s.query + [Row(s.store[0])], pc := Sizing(i))
      case Sizing(i) =>
        if s.store == [] then Emit(s)
        else if i != bulk - 1 then Turn(bulk, s.(query := s.query + [Comma]), i + 1)
        else Turn(bulk, s, i + 1)
  }

  /** The head of the inner loop with counter i. */
  function Turn(bulk: nat, s: State, i: nat): State {
    if i < bulk then s.(pc := Popping(i)) else Emit(s)
  }

  function Emit(s: State): State {
    s.(sent := s.sent + [s.query], query := [], pc := Looping)
  }

  function Exec(min: nat, bulk: nat, s: State, actions: seq<Action>): State {
    if actions == [] then s
    else Next(min, bulk, Exec(min, bulk, s, actions[..|actions| - 1]), actions[|actions| - 1])
  }

  /** Shares are in exactly one place, in order of arrival; sent queries are well formed; the uploader never
      stands before a pop with nothing to pop. */
  ghost predicate Inv(bulk: nat, s: State) {
    && AllRows(s.sent) + RowsOf(s.query) + s.store == s.pushed
    && (forall k :: 0 <= k < |s.sent| ==> WellFormed(s.sent[k], bulk))
    && match s.pc
       case Idle => s.query == []
       case Looping => s.query == []
       case Popping(i) => i < bulk && s.store != [] && Open(s.query, i)
       case Sizing(i) => i < bulk && WellFormed(s.query, i + 1) && |RowsOf(s.query)| == i + 1
       case Crashed => false
  }

  lemma EmitKeeps(bulk: nat, s: State)
    requires AllRows(s.sent) + RowsOf(s.query) + s.store == s.pushed
    requires forall k :: 0 <= k < |s.sent| ==> WellFormed(s.sent[k], bulk)
    requires WellFormed(s.query, bulk)
    ensures Inv(bulk, Emit(s))
  {
    hide WellFormed;
    AllRowsSnoc(s.sent, s.query);
    var e := Emit(s);
    assert RowsOf(e.query) == [];
    assert AllRows(e.sent) + [] == AllRows(s.sent) + RowsOf(s.query);
  }

  lemma PopKeeps(bulk: nat, s: State)
    requires Inv(bulk, s) && s.pc.Popping?
    ensures Inv(bulk, Next(0, bulk, s, Advance))
  {
    hide AllRows, Joined;
    AddRow(s.query, s.pc.i, s.store[0]);
    assert s.store == [s.store[0]] + s.store[1..];
    assert RowsOf(s.query) + [s.store[0]] + s.store[1..] == RowsOf(s.query) + s.store;
  }

  lemma NextKeepsInv(min: nat, bulk: nat, s: State, a: Action)
    requires bulk >= 1 && Inv(bulk, s)
    ensures Inv(bulk, Next(min, bulk, s, a))
  {
    hide AllRows, RowsOf, Joined, WellFormed, Open;
    match a
    case Push(x) =>
      assert AllRows(s.sent) + RowsOf(s.query) + (s.store + [x]) == s.pushed + [x];
    case Timer =>
    case Advance =>
      match s.pc {
        case Popping(i) => PopKeeps(bulk, s);
        case Looping => EmptyIsOpen();
        case Sizing(i) =>
          WiderBulk(s.query, i + 1, bulk);
          EmitKeeps(bulk, s);
          AddComma(s.query, i + 1);
        case _ =>
      }
  }

  lemma EmptyIsOpen()
    ensures Open([], 0)
  {
  }

  lemma WiderBulk(q: Query, a: nat, b: nat)
    requires WellFormed(q, a) && a <= b
    ensures WellFormed(q, b)
  {
  }

  /** Every reachable state, under every interleaving of pushes, timer firings and uploader steps. */
  lemma {:induction false} DeliveryInv(min: nat, bulk: nat, s: State, actions: seq<Action>)
    requires bulk >= 1 && Inv(bulk, s)
    ensures Inv(bulk, Exec(min, bulk, s, actions))
  {
    hide Inv, Next;
    if actions != [] {
      DeliveryInv(min, bulk, s, actions[..|actions| - 1]);
      NextKeepsInv(min, bulk, Exec(min, bulk, s, actions[..|actions| - 1]), actions[|actions| - 1]);
    }
  }

  /** Nothing pushed and no upload under way. */
  function Empty(): State {
    State([], Idle, [], [], [])
  }

  /** The shares a sequence of actions pushes, in order. */
  function Pushes(actions: seq<Action>): seq<Share> {
    if actions == [] then []
    else
      var rest, last := Pushes(actions[..|actions| - 1]), actions[|actions| - 1];
      if last.Push? then rest + [last.share] else rest
  }

  lemma {:induction false} PushedExactly(min: nat, bulk: nat, s: State, actions: seq<Action>)
    ensures Exec(min, bulk, s, actions).pushed == s.pushed + Pushes(actions)
  {
    if actions != [] {
      PushedExactly(min, bulk, s, actions[..|actions| - 1]);
    }
  }

  /** From the start, under every interleaving: what was pushed, in order, is what the queries sent so far, the
      query being built and the deque hold, in this order, and every query sent is well formed. */
  lemma Delivered(min: nat, bulk: nat, actions: seq<Action>)
    requires bulk >= 1
    ensures
      var s := Exec(min, bulk, Empty(), actions);
      && Inv(bulk, s) && AllRows(s.sent) + RowsOf(s.query) + s.store == Pushes(actions)
  {
    hide Exec, Next, Pushes;
    assert AllRows([]) + RowsOf([]) + [] == [];
    DeliveryInv(min, bulk, Empty(), actions);
    PushedExactly(min, bulk, Empty(), actions);
    assert [] + Pushes(actions) == Pushes(actions);
  }

  // ---------------------------------------------------------------- uploader steps in a row

  function Advances(n: nat): seq<Action> {
    if n == 0 then [] else Advances(n - 1) + [Advance]
  }

  /** s' is s after n uploader steps with no push in between. */
  ghost predicate Advanced(min: nat, bulk: nat, s: State, n: nat, s': State) {
    s' == Exec(min, bulk, s, Advances(n))
  }

  lemma NotAdvanced(min: nat, bulk: nat, s: State)
    ensures Advanced(min, bulk, s, 0, s)
  {
  }

  lemma AdvanceOnce(min: nat, bulk: nat, s: State, n: nat, s': State)
    requires Advanced(min, bulk, s, n, s')
    ensures Advanced(min, bulk, s, n + 1, Next(min, bulk, s', Advance))
  {
    hide Next;
    assert Advances(n + 1)[..|Advances(n)|] == Advances(n);
  }

  lemma {:induction false} AdvanceOn(min: nat, bulk: nat, s: State, m: nat, s': State, n: nat, s'': State)
    requires Advanced(min, bulk, s, m, s') && Advanced(min, bulk, s', n, s'')
    ensures Advanced(min, bulk, s, m + n, s'')
    decreases n
  {
    hide Next;
    if n > 0 {
      var before := Exec(min, bulk, s', Advances(n - 1));
      AdvanceOn(min, bulk, s, m, s', n - 1, before);
      AdvanceOnce(min, bulk, s, m + n - 1, before);
      assert Advances(n)[..|Advances(n - 1)|] == Advances(n - 1);
    }
  }

  /** The bulk count must be positive: with zero the uploader sends an empty query and is back where it was. */
  lemma ZeroBulkSpins(min: nat, s: State)
    requires s.pc.Looping? && |s.store| > min && s.query == []
    ensures Next(min, 0, s, Advance) == s.(sent := s.sent + [[]])
    ensures forall bulk: nat :: !WellFormed([], bulk)
  {
  }

  // ---------------------------------------------------------------- uploads end

  function Rank(pc: Pc): nat {
    match pc
    case Sizing(_) => 2
    case Looping => 1
    case _ => 0
  }

  /** Left alone, an upload under way comes to an end with at most `min` shares left. */
  lemma {:induction false} UploadEnds(min: nat, bulk: nat, s: State) returns (n: nat, s': State)
    requires bulk >= 1 && Inv(bulk, s) && !s.pc.Idle?
    ensures Advanced(min, bulk, s, n, s') && Inv(bulk, s') && s'.pc.Idle? && |s'.store| <= min && s'.pushed == s.pushed
    decreases |s.store|, Rank(s.pc)
  {
    hide Inv, Advanced;
    var next := Next(min, bulk, s, Advance);
    NextKeepsInv(min, bulk, s, Advance);
    NotAdvanced(min, bulk, s);
    AdvanceOnce(min, bulk, s, 0, s);
    StepDown(min, bulk, s);
    if next.pc.Idle? {
      n, s' := 1, next;
    } else {
      var m, r := UploadEnds(min, bulk, next);
      AdvanceOn(min, bulk, s, 1, next, m, r);
      n, s' := 1 + m, r;
    }
  }

  lemma StepDown(min: nat, bulk: nat, s: State)
    requires bulk >= 1 && Inv(bulk, s) && !s.pc.Idle?
    ensures
      var next := Next(min, bulk, s, Advance);
      && next.pushed == s.pushed && (next.pc.Idle? ==> |next.store| <= min)
      && (|next.store| < |s.store| || (next.store == s.store && (next.pc.Idle? || Rank(next.pc) < Rank(s.pc))))
  {
    hide AllRows, RowsOf, WellFormed, Open, Joined;
  }

  /** So a timer firing while the uploader is idle gets the deque down to `min`, if there are no pushes. */
  lemma TimerUploads(min: nat, bulk: nat, s: State) returns (n: nat)
    requires bulk >= 1 && Inv(bulk, s) && s.pc.Idle?
    ensures
      var s' := Exec(min, bulk, Next(min, bulk, s, Timer), Advances(n));
      Inv(bulk, s') && s'.pc.Idle? && |s'.store| <= min && s'.pushed == s.pushed
  {
    hide Inv, Exec, Advances;
    NextKeepsInv(min, bulk, s, Timer);
    var m, r := UploadEnds(min, bulk, Next(min, bulk, s, Timer));
    n := m;
  }

  // ---------------------------------------------------------------- the object

  class DataMgr {
    var datastore: seq<Share>

    constructor ()
      ensures datastore == []
    {
      datastore := [];
    }

    method Push(data: Share)
      modifies this
      ensures datastore == old(datastore) + [data]
    {
      datastore := datastore + [data];
    }

    method Pop() returns (share: Share)
      requires datastore != []
      modifies this
      ensures [share] + datastore == old(datastore)
    {
      share := datastore[0];
      datastore := datastore[1..];
    }

    /** One bulk: rows popped until the count is reached or the deque runs dry. From the loop head, the steps
        taken are those of the state machine. */
    method FillQuery(ghost min: nat, bulk: nat, ghost s: State) returns (query: Query, ghost n: nat)
      requires bulk >= 1 && |datastore| > min && s.pc.Looping? && s.store == datastore
      modifies this
      ensures WellFormed(query, bulk)
      ensures RowsOf(query) + datastore == old(datastore)
      ensures |RowsOf(query)| == if |old(datastore)| < bulk then |old(datastore)| else bulk
      ensures Advanced(min, bulk, s, n,
                       s.(store := datastore, pc := Looping, query := [], sent := s.sent + [query]))
    {
      hide RowsOf, Joined, WellFormed, Open, Advanced;
      query := [];
      EmptyIsOpen();
      NoRows();
      NotAdvanced(min, bulk, s);
      AdvanceOnce(min, bulk, s, 0, s);
      n := 1;
      var i := 0;
      while i < bulk
        invariant 0 <= i <= bulk && |RowsOf(query)| == i
        invariant i < bulk ==> datastore != [] && Open(query, i)
        invariant i < bulk ==> Advanced(min, bulk, s, n, s.(store := datastore, pc := Popping(i), query := query))
        invariant i == bulk ==> WellFormed(query, bulk)
        invariant i == bulk ==> Advanced(min, bulk, s, n, Emit(s.(store := datastore, query := query)))
        invariant RowsOf(query) + datastore == old(datastore)
      {
        AddRow(query, i, datastore[0]);
        AdvanceOnce(min, bulk, s, n, s.(store := datastore, pc := Popping(i), query := query));
        ghost var before := RowsOf(query) + datastore;
        var share := Pop();
        query := query + [Row(share)];
        AdvanceOnce(min, bulk, s, n + 1, s.(store := datastore, pc := Sizing(i), query := query));
        n := n + 2;
        assert RowsOf(query) + datastore == before;
        WiderBulk(query, i + 1, bulk);
        if datastore == [] {
          break;
        }
        if i != bulk - 1 {
          AddComma(query, i + 1);
          query := query + [Comma];
        }
        i := i + 1;
      }
    }

    /** With no pushes in between: ends, leaves at most `min` shares, and every share is either in the deque or
        in exactly one of the queries, in order. A query was begun only while more than `min` were left, and only
        one that emptied the deque has fewer rows than `bulk`. The run is one of the state machine's. */
    method Upload(min: nat, bulk: nat) returns (sent: seq<Query>, ghost n: nat)
      requires bulk >= 1
      modifies this
      ensures |datastore| <= min
      ensures AllRows(sent) + datastore == old(datastore)
      ensures forall k :: 0 <= k < |sent| ==> WellFormed(sent[k], bulk)
      ensures Thrifty(min, bulk, sent, datastore)
      ensures Advanced(min, bulk, State(old(datastore), Looping, [], [], old(datastore)), n,
                       State(datastore, Idle, [], sent, old(datastore)))
    {
      hide RowsOf, WellFormed, Advanced, Thrifty, AllRows;
      NoneSent();
      ghost var s := State(datastore, Looping, [], [], datastore);
      sent, n := [], 0;
      NotAdvanced(min, bulk, s);
      while |datastore| > min
        invariant AllRows(sent) + datastore == old(datastore)
        invariant forall k :: 0 <= k < |sent| ==> WellFormed(sent[k], bulk)
        invariant Thrifty(min, bulk, sent, datastore)
        invariant Advanced(min, bulk, s, n, s.(store := datastore, sent := sent))
        decreases |datastore|
      {
        ghost var here := s.(store := datastore, sent := sent);
        var query, m := FillQuery(min, bulk, here);
        AllRowsSnoc(sent, query);
        ThriftySnoc(min, bulk, sent, here.store, query, datastore);
        assert AllRows(sent) + (RowsOf(query) + datastore) == AllRows(sent) + RowsOf(query) + datastore;
        sent := sent + [query];
        AdvanceOn(min, bulk, s, n, here, m, s.(store := datastore, sent := sent));
        n := n + m;
      }
      AdvanceOnce(min, bulk, s, n, s.(store := datastore, sent := sent));
      n := n + 1;
    }
  }

  /** Every query has its full count of rows. */
  ghost predicate NoneShort(sent: seq<Query>, bulk: nat) {
    forall k :: 0 <= k < |sent| ==> |RowsOf(sent[k])| == bulk
  }

  /** The last query was begun with more than `min` shares left, and if any is short it is the last, which emptied the
      deque. */
  ghost predicate Thrifty(min: nat, bulk: nat, sent: seq<Query>, left: seq<Share>) {
    && (NoneShort(sent, bulk) || (sent != [] && left == [] && NoneShort(sent[..|sent| - 1], bulk)))
    && (sent == [] || |RowsOf(sent[|sent| - 1])| + |left| > min)
  }

  lemma ThriftySnoc(min: nat, bulk: nat, sent: seq<Query>, before: seq<Share>, q: Query, left: seq<Share>)
    requires Thrifty(min, bulk, sent, before) && |before| > min && RowsOf(q) + left == before
    requires |RowsOf(q)| == if |before| < bulk then |before| else bulk
    ensures Thrifty(min, bulk, sent + [q], left)
  {
    hide RowsOf;
    assert (sent + [q])[..|sent + [q]| - 1] == sent;
  }

  lemma NoneSent()
    ensures AllRows([]) == [] && forall min: nat, bulk: nat, left: seq<Share> :: Thrifty(min, bulk, [], left)
  {
  }

  lemma NoRows()
    ensures RowsOf([]) == []
  {
  }
}
