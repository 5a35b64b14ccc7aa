/** The server side of extranonces: the counter, and what it means for clients that work on the same template. */
module Pool {
  import opened Bytes
  import opened Codec
  import opened Blocks
  import opened Work
  import opened Commitment
  import opened Limiting
  import opened Stratum
  import opened Runs
  import opened Duplicates

  /** The extranonce handed out as number n. */
  function Extranonce(n: nat): U32 {
    n % 0x1_0000_0000
  }

  class Server {
    var extranonce: U32
    ghost var handed: nat

    ghost predicate Valid()
      reads this
    {
      extranonce == Extranonce(handed)
    }

    constructor ()
      ensures Valid() && handed == 0
    {
      extranonce, handed := 0, 0;
    }

    /** Post-increment of a 32-bit counter. */
    method GetExtranonce() returns (en: U32)
      requires Valid()
      modifies this
      ensures Valid() && handed == old(handed) + 1 && en == Extranonce(old(handed))
    {
      en := extranonce;
      extranonce := if extranonce == 0xFFFF_FFFF then 0 else extranonce + 1;
      handed := handed + 1;
    }
  }

  /** Within 2^32 subscriptions no extranonce is handed out twice, and then they come round. */
  lemma ExtranonceRepeats(j: nat, k: nat)
    requires j <= k
    ensures k < j + 0x1_0000_0000 ==> (Extranonce(j) == Extranonce(k) <==> j == k)
    ensures Extranonce(j + 0x1_0000_0000) == Extranonce(j)
  {
  }

  /** Two subscribers make the same coinbase bytes from one template exactly when their places in the queue agree
      modulo 2^32 and they choose the same extranonce2. */
  lemma CoinbasesApart(t: Transaction, j: nat, k: nat, en2: Data, en2': Data)
    requires IsTemplateCoinbase(t) && |en2| == 4 && |en2'| == 4
    ensures |t.ins| == 1 && |t.ins[0].script| == 12
    ensures TxBytes(WithExtranonce(t, LE(Extranonce(j), 4) + en2))
            == TxBytes(WithExtranonce(t, LE(Extranonce(k), 4) + en2'))
            <==> j % 0x1_0000_0000 == k % 0x1_0000_0000 && en2 == en2'
  {
    hide TxBytes, Cut, TakeTx, LE, WithExtranonce, IsTemplateCoinbase;
    var a, b := LE(Extranonce(j), 4), LE(Extranonce(k), 4);
    CoinbaseSplice(t, a, en2);
    if TxBytes(WithExtranonce(t, a + en2)) == TxBytes(WithExtranonce(t, b + en2')) {
      SpliceInjective(t, a, en2, b, en2');
      LEInjective(Extranonce(j), Extranonce(k));
    }
  }

  /** A connection: how it starts and everything that happens on it. */
  datatype Connection = Connection(c: Config, extranonce: U32, lastShares: nat, now: nat, inputs: seq<Input>)

  ghost predicate Live(k: Connection) {
    ConfigOk(k.c) && k.now < 0x1_0000_0000 && InputsOk(k.now, k.inputs)
  }

  ghost function Start(k: Connection): (s: Session)
    requires Live(k)
    ensures Inv(k.c, s, k.now)
  {
    ConnectedInv(k.c, k.extranonce, k.lastShares, k.now);
    Connected(k.c, k.extranonce, k.lastShares, k.now)
  }

  /** Everything the connection is credited, and the work of every job it was given. */
  ghost function Ledger(H: HashFn, k: Connection): seq<Credit>
    requires Live(k)
  {
    Credits(Run(H, k.c, Start(k), k.now, k.inputs).1)
  }

  ghost function Works(H: HashFn, k: Connection): seq<BlockData>
    requires Live(k)
  {
    RunWorks(H, k.c, Start(k), k.now, k.inputs)
  }

  ghost predicate AllOrdinary(works: seq<BlockData>) {
    forall w :: w in works ==> Ordinary(w)
  }

  lemma LedgerMade(H: HashFn, k: Connection)
    requires Live(k)
    ensures forall x :: x in Ledger(H, k) ==> MadeFrom(H, x, Works(H, k), Extranonces(k.extranonce, k.inputs))
  {
    hide Inv, InputsOk, ConfigOk, Run, Credits, RunWorks, MadeFrom, Extranonces, Logged;
    NothingLogged(k.c, k.extranonce, k.lastShares, k.now);
    CreditsMade(H, k.c, Start(k), k.now, k.inputs, [], [], Extranonces(k.extranonce, k.inputs));
    assert [] + Works(H, k) == Works(H, k);
  }

  lemma LedgersApart(H: HashFn, ks: seq<Credit>, ks': seq<Credit>, works: seq<BlockData>, works': seq<BlockData>,
                     ens: set<U32>, ens': set<U32>, S: set<Data>)
    requires forall x :: x in ks ==> MadeFrom(H, x, works, ens)
    requires forall x :: x in ks' ==> MadeFrom(H, x, works', ens')
    requires AllOrdinary(works) && AllOrdinary(works')
    requires CollisionFree(H, S) && Within(H, ks, S) && Within(H, ks', S)
    ensures SharedExactly(ks, ks', works, works') && (ens * ens' == {} ==> NoneShared(ks, ks'))
  {
    hide MadeFrom, HeaderBytes, BlockInputs, CollisionFree, Ordinary, SameWork;
    forall a, b | 0 <= a < |ks| && 0 <= b < |ks'|
      ensures HeaderBytes(ks[a].block) == HeaderBytes(ks'[b].block) <==> SameClaim(ks[a], ks'[b], works, works')
      ensures HeaderBytes(ks[a].block) == HeaderBytes(ks'[b].block) ==> ens * ens' != {}
    {
      MadeSerial(H, ks[a], works, ens);
      MadeSerial(H, ks'[b], works', ens');
      if SameClaim(ks[a], ks'[b], works, works') {
        SameClaimSameHeader(H, ks[a], ks'[b], works, works', ens, ens');
      }
      if HeaderBytes(ks[a].block) == HeaderBytes(ks'[b].block) {
        SameHeaderSameWork(H, ks[a], ks'[b], works, works', ens, ens', S);
      }
    }
  }

  /** The headers common to both ledgers are those claimed for the same work with the same coinbase, time and
      nonce. */
  ghost predicate SharedExactly(ks: seq<Credit>, ks': seq<Credit>, works: seq<BlockData>, works': seq<BlockData>) {
    forall a, b :: 0 <= a < |ks| && 0 <= b < |ks'| ==>
      (HeaderBytes(ks[a].block) == HeaderBytes(ks'[b].block) <==> SameClaim(ks[a], ks'[b], works, works'))
  }

  ghost predicate NoneShared(ks: seq<Credit>, ks': seq<Credit>) {
    forall a, b :: 0 <= a < |ks| && 0 <= b < |ks'| ==> HeaderBytes(ks[a].block) != HeaderBytes(ks'[b].block)
  }

  /** When a header is credited on two connections: exactly when both were given the same work and sent the same
      coinbase, time and nonce. So never on connections that do not hold a common extranonce. */
  lemma NoHeaderShared(H: HashFn, k: Connection, k': Connection, S: set<Data>)
    requires Live(k) && Live(k') && AllOrdinary(Works(H, k)) && AllOrdinary(Works(H, k'))
    requires CollisionFree(H, S) && Within(H, Ledger(H, k), S) && Within(H, Ledger(H, k'), S)
    ensures SharedExactly(Ledger(H, k), Ledger(H, k'), Works(H, k), Works(H, k'))
    ensures Extranonces(k.extranonce, k.inputs) * Extranonces(k'.extranonce, k'.inputs) == {} ==>
              NoneShared(Ledger(H, k), Ledger(H, k'))
  {
    hide *;
    LedgerMade(H, k);
    LedgerMade(H, k');
    LedgersApart(H, Ledger(H, k), Ledger(H, k'), Works(H, k), Works(H, k'),
                 Extranonces(k.extranonce, k.inputs), Extranonces(k'.extranonce, k'.inputs), S);
  }

  // ---------------------------------------------------------------- subscribers

  function Among(xs: seq<U32>): set<U32> {
    set x | x in xs
  }

  /** The extranonces handed to a client, in order. */
  function Subscriptions(inputs: seq<Input>): seq<U32> {
    if inputs == [] then []
    else
      var e := inputs[|inputs| - 1].event;
      Subscriptions(inputs[..|inputs| - 1]) + if e.Subscribe? then [e.extranonce] else []
  }

  /** What the counter yields for the calls made for client k; owner[n] is the client of call number n. */
  function CallsOf(k: nat, owner: seq<nat>): seq<U32> {
    if owner == [] then []
    else
      var n := |owner| - 1;
      CallsOf(k, owner[..n]) + if owner[n] == k then [Extranonce(n)] else []
  }

  /** Every subscription of every client got its extranonce from the counter. */
  ghost predicate Served(clients: seq<Connection>, owner: seq<nat>) {
    forall k :: 0 <= k < |clients| ==> Live(clients[k]) && Subscriptions(clients[k].inputs) == CallsOf(k, owner)
  }

  lemma {:induction false} Subscribed(inputs: seq<Input>, i: nat)
    requires i < |inputs| && inputs[i].event.Subscribe?
    ensures inputs[i].event.extranonce in Subscriptions(inputs)
  {
    if i < |inputs| - 1 {
      Subscribed(inputs[..|inputs| - 1], i);
    }
  }

  lemma {:induction false} CallNumber(k: nat, owner: seq<nat>, en: U32) returns (n: nat)
    requires en in CallsOf(k, owner)
    ensures n < |owner| && owner[n] == k && en == Extranonce(n)
  {
    var last := |owner| - 1;
    if en in CallsOf(k, owner[..last]) {
      n := CallNumber(k, owner[..last], en);
    } else {
      n := last;
    }
  }

  lemma CallsApart(j: nat, k: nat, owner: seq<nat>)
    requires j != k && |owner| <= 0x1_0000_0000
    ensures Among(CallsOf(j, owner)) * Among(CallsOf(k, owner)) == {}
  {
    hide CallsOf;
    forall en | en in CallsOf(j, owner)
      ensures en !in CallsOf(k, owner)
    {
      if en in CallsOf(k, owner) {
        var m := CallNumber(j, owner, en);
        var n := CallNumber(k, owner, en);
      }
    }
  }

  /** What the connection is credited from input m on. */
  ghost function LedgerFrom(H: HashFn, k: Connection, m: nat): seq<Credit>
    requires Live(k) && m <= |k.inputs|
  {
    RunSplit(H, k.c, Start(k), k.now, k.inputs, m);
    var s, clock := Run(H, k.c, Start(k), k.now, k.inputs[..m]).0, EndClock(k.now, k.inputs[..m]);
    Credits(Run(H, k.c, s, clock, k.inputs[m..]).1)
  }

  /** It is what the ledger ends in. */
  lemma LedgerFromIsSuffix(H: HashFn, k: Connection, m: nat)
    requires Live(k) && m <= |k.inputs|
    ensures InputsOk(k.now, k.inputs[..m])
    ensures Ledger(H, k) == Credits(Run(H, k.c, Start(k), k.now, k.inputs[..m]).1) + LedgerFrom(H, k, m)
  {
    hide Inv, InputsOk, ConfigOk, Run, Credits, EndClock;
    RunSplit(H, k.c, Start(k), k.now, k.inputs, m);
    var (s, out) := Run(H, k.c, Start(k), k.now, k.inputs[..m]);
    CreditsConcat(out, Run(H, k.c, s, EndClock(k.now, k.inputs[..m]), k.inputs[m..]).1);
  }

  lemma {:induction false} WorksSplit(H: HashFn, c: Config, s: Session, clock: nat, inputs: seq<Input>, j: nat)
    requires Inv(c, s, clock) && InputsOk(clock, inputs) && j <= |inputs|
    ensures InputsOk(clock, inputs[..j]) && InputsOk(EndClock(clock, inputs[..j]), inputs[j..])
    ensures
      var r := Run(H, c, s, clock, inputs[..j]).0;
      && Inv(c, r, EndClock(clock, inputs[..j]))
      && RunWorks(H, c, s, clock, inputs)
         == RunWorks(H, c, s, clock, inputs[..j]) + RunWorks(H, c, r, EndClock(clock, inputs[..j]), inputs[j..])
    decreases inputs
  {
    hide *;
    RunSplit(H, c, s, clock, inputs, j);
    if j == 0 {
      NoneTaken(clock, inputs);
      EmptyRun(H, c, s, clock);
      NoLogs(H, c, s, clock);
      assert forall w: seq<BlockData> :: [] + w == w;
    } else {
      var i := inputs[0];
      LogsHead(H, c, s, clock, inputs);
      LogsHead(H, c, s, clock, inputs[..j]);
      RunHead(H, c, s, clock, inputs[..j]);
      var s1 := Step(H, c, s, i).0;
      WorksSplit(H, c, s1, i.now, inputs[1..], j - 1);
      TakenFromRest(clock, inputs, j);
      var w := if s1.issued == s.issued then [] else [i.work];
      var x := RunWorks(H, c, s1, i.now, inputs[1..][..j - 1]);
      var r := Run(H, c, s1, i.now, inputs[1..][..j - 1]).0;
      var y := RunWorks(H, c, r, EndClock(clock, inputs[..j]), inputs[j..]);
      assert w + (x + y) == (w + x) + y;
    }
  }

  lemma TakenFromRest(clock: nat, inputs: seq<Input>, j: nat)
    requires 0 < j <= |inputs|
    ensures inputs[..j][1..] == inputs[1..][..j - 1] && inputs[..j][0] == inputs[0]
    ensures inputs[1..][j - 1..] == inputs[j..]
    ensures EndClock(clock, inputs[..j]) == EndClock(inputs[0].now, inputs[1..][..j - 1])
  {
  }

  /** Right after a subscription the client holds an extranonce it was handed. */
  lemma HoldsHanded(H: HashFn, k: Connection, m: nat)
    requires Live(k) && 0 < m <= |k.inputs| && k.inputs[m - 1].event.Subscribe?
    ensures InputsOk(k.now, k.inputs[..m])
    ensures Run(H, k.c, Start(k), k.now, k.inputs[..m]).0.extranonce in Subscriptions(k.inputs)
  {
    hide Inv, InputsOk, ConfigOk, Run, Step, TemplateOk, Subscriptions;
    InputsPrefix(k.now, k.inputs, m);
    var taken := k.inputs[..m];
    RunSnoc(H, k.c, Start(k), k.now, taken, m - 1);
    StepExtranonce(H, k.c, Run(H, k.c, Start(k), k.now, taken[..m - 1]).0, taken[m - 1]);
    Subscribed(k.inputs, m - 1);
  }

  lemma HandsSubscriptions(inputs: seq<Input>, m: nat)
    requires m <= |inputs|
    ensures HandsOnly(inputs[m..], Among(Subscriptions(inputs)))
  {
    hide Subscriptions;
    forall i | i in inputs[m..] && i.event.Subscribe?
      ensures i.event.extranonce in Subscriptions(inputs)
    {
      var n :| 0 <= n < |inputs| && inputs[n] == i;
      Subscribed(inputs, n);
    }
  }

  lemma LedgerFromMade(H: HashFn, k: Connection, m: nat)
    requires Live(k) && 0 < m <= |k.inputs| && k.inputs[m - 1].event.Subscribe?
    ensures forall x :: x in LedgerFrom(H, k, m) ==>
              MadeFrom(H, x, Works(H, k), Among(Subscriptions(k.inputs)))
  {
    hide Inv, InputsOk, ConfigOk, Run, Credits, RunWorks, RunTries, MadeFrom, Logged, Subscriptions, EndClock,
         HandsOnly;
    RunSplit(H, k.c, Start(k), k.now, k.inputs, m);
    WorksSplit(H, k.c, Start(k), k.now, k.inputs, m);
    HoldsHanded(H, k, m);
    HandsSubscriptions(k.inputs, m);
    var s, clock := Run(H, k.c, Start(k), k.now, k.inputs[..m]).0, EndClock(k.now, k.inputs[..m]);
    SessionLogged(H, k.c, k.extranonce, k.lastShares, k.now, k.inputs[..m]);
    CreditsMade(H, k.c, s, clock, k.inputs[m..], RunWorks(H, k.c, Start(k), k.now, k.inputs[..m]),
                RunTries(H, k.c, Start(k), k.now, k.inputs[..m]), Among(Subscriptions(k.inputs)));
  }

  /** Any number of clients served by one counter, at most 2^32 subscriptions in all: no header is credited on two of
      them after they subscribed. */
  lemma SubscribersShareNoHeader(H: HashFn, clients: seq<Connection>, owner: seq<nat>, j: nat, k: nat, m: nat, n: nat,
                                 S: set<Data>)
    requires Served(clients, owner) && |owner| <= 0x1_0000_0000 && j < |clients| && k < |clients| && j != k
    requires 0 < m <= |clients[j].inputs| && clients[j].inputs[m - 1].event.Subscribe?
    requires 0 < n <= |clients[k].inputs| && clients[k].inputs[n - 1].event.Subscribe?
    requires Live(clients[j]) && AllOrdinary(Works(H, clients[j])) && Within(H, LedgerFrom(H, clients[j], m), S)
    requires Live(clients[k]) && AllOrdinary(Works(H, clients[k])) && Within(H, LedgerFrom(H, clients[k], n), S)
    requires CollisionFree(H, S)
    ensures NoneShared(LedgerFrom(H, clients[j], m), LedgerFrom(H, clients[k], n))
  {
    hide Live, LedgerFrom, Works, CallsOf, Subscriptions, NoneShared, AllOrdinary, Within, CollisionFree, MadeFrom;
    var a, b := clients[j], clients[k];
    LedgerFromMade(H, a, m);
    LedgerFromMade(H, b, n);
    CallsApart(j, k, owner);
    LedgersApart(H, LedgerFrom(H, a, m), LedgerFrom(H, b, n), Works(H, a), Works(H, b),
                 Among(Subscriptions(a.inputs)), Among(Subscriptions(b.inputs)), S);
  }
}
