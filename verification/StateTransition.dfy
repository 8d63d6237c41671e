/** Applying transactions and blocks to the state. */
module StateTransition {
  import opened Options
  import opened NodeCodec
  import opened StateView
  import opened Balances
  import opened StateDB

  datatype Message = Message(from: Address, to: Option<Address>, value: int, nonce: Uint64, hash: Digest)

  datatype TxError = NonceTooHigh | NonceTooLow | ContractCreation | InsufficientBalance

  const REWARD: int := 5_000_000_000_000_000_000

  function Fee(value: int): int {
    var fee := value / 1000;
    if fee < 1 then 1 else fee
  }

  /** A thousandth of the value, rounded down, and at least one. */
  lemma {:induction false} FeeBounds(value: int)
    ensures Fee(value) >= 1 && (value < 2000 ==> Fee(value) == 1)
    ensures value >= 1000 ==> 1000 * Fee(value) <= value < 1000 * (Fee(value) + 1)
  {
  }

  /** Why a message is refused in a state, if it is. */
  function Refusal(v: View, msg: Message): Option<TxError> {
    if NonceIn(v, msg.from) < msg.nonce then Some(NonceTooHigh)
    else if NonceIn(v, msg.from) > msg.nonce then Some(NonceTooLow)
    else if msg.to.None? then Some(ContractCreation)
    else if BalanceIn(v, msg.from) < Fee(msg.value) + msg.value then Some(InsufficientBalance)
    else None
  }

  /** A message is accepted exactly if it is the sender's next, has a recipient, and the sender can pay value and fee;
      the first of these that fails is reported. */
  lemma {:induction false} RefusedExactly(v: View, msg: Message)
    ensures Refusal(v, msg) == None <==>
            && NonceIn(v, msg.from) == msg.nonce && msg.to.Some?
            && BalanceIn(v, msg.from) >= msg.value + 1 && 1000 * (BalanceIn(v, msg.from) - msg.value) > msg.value - 1000
    ensures Refusal(v, msg).Some? && NonceIn(v, msg.from) != msg.nonce ==>
            Refusal(v, msg) == Some(if NonceIn(v, msg.from) < msg.nonce then NonceTooHigh else NonceTooLow)
    ensures Refusal(v, msg).Some? && NonceIn(v, msg.from) == msg.nonce ==>
            Refusal(v, msg) == Some(if msg.to.None? then ContractCreation else InsufficientBalance)
  {
    FeeBounds(msg.value);
  }

  /** The effect of an accepted message, step by step. */
  function Transferred(v: View, msg: Message, coinbase: Address): View
    requires msg.to.Some?
  {
    var fee := Fee(msg.value);
    var paid := Credit(Credit(Bump(Ensured(v, msg.from), msg.from), msg.to.value, msg.value), coinbase, fee);
    Credit(paid, msg.from, -(fee + msg.value))
  }

  /** What a message moves, whoever of sender, recipient and coinbase coincide. */
  function Gain(msg: Message, coinbase: Address, a: Address): int
    requires msg.to.Some?
  {
    var fee := Fee(msg.value);
    (if a == msg.to.value then msg.value else 0) + (if a == coinbase then fee else 0)
    - if a == msg.from then fee + msg.value else 0
  }

  lemma {:induction false} TransferEffect(v: View, msg: Message, coinbase: Address)
    requires msg.to.Some?
    ensures var w := Transferred(v, msg, coinbase);
            && Total(w.accts) == Total(v.accts)
            && (forall a :: BalanceIn(w, a) == BalanceIn(v, a) + Gain(msg, coinbase, a))
            && (forall a :: NonceIn(w, a) == if a == msg.from then Next(NonceIn(v, a)) else NonceIn(v, a))
            && (NoneSuicided(v) ==> NoneSuicided(w))
  {
    hide Credit, Bump, Ensured, Total, NoneSuicided, BalanceIn, NonceIn;
    var fee := Fee(msg.value);
    var v0 := Ensured(v, msg.from);
    EnsuredSame(v, msg.from);
    var v1 := Bump(v0, msg.from);
    BumpEffect(v0, msg.from);
    var v2 := Credit(v1, msg.to.value, msg.value);
    CreditEffect(v1, msg.to.value, msg.value);
    var v3 := Credit(v2, coinbase, fee);
    CreditEffect(v2, coinbase, fee);
    CreditEffect(v3, msg.from, -(fee + msg.value));
  }

  /** Only the recipient's balance can go below zero, and it does not when the value is not negative. */
  lemma {:induction false} TransferNonNegative(v: View, msg: Message, coinbase: Address)
    requires Refusal(v, msg) == None && NoneNegative(v)
    ensures NoneNegative(Transferred(v, msg, coinbase)) <==>
            BalanceIn(v, msg.to.value) + Gain(msg, coinbase, msg.to.value) >= 0
    ensures msg.value >= 0 ==> NoneNegative(Transferred(v, msg, coinbase))
  {
    hide Transferred, BalanceIn, NonceIn;
    TransferEffect(v, msg, coinbase);
    assert BalanceIn(Transferred(v, msg, coinbase), msg.to.value) == BalanceIn(v, msg.to.value) + Gain(msg, coinbase, msg.to.value);
  }

  /** A negative value is accepted and drives the recipient below zero. */
  lemma {:induction false} NegativeValue(v: View, from: Address, to: Address, coinbase: Address)
    requires from != to && to != coinbase && NonceIn(v, from) == 0 && BalanceIn(v, from) >= 0 && BalanceIn(v, to) == 0
    ensures var msg := Message(from, Some(to), -5, 0, ZeroHash);
            Refusal(v, msg) == None && BalanceIn(Transferred(v, msg, coinbase), to) == -5
  {
    hide Transferred;
    TransferEffect(v, Message(from, Some(to), -5, 0, ZeroHash), coinbase);
  }

  /** Whoever takes part in a message is marked, or has something left. */
  ghost predicate Provided(v: View, msg: Message, coinbase: Address, marked: set<Address>)
    requires msg.to.Some?
  {
    forall a | a in {msg.from, msg.to.value, coinbase} && a in v.accts :: a in marked || !IsEmpty(v.accts[a])
  }

  method From(db: StateDB, f: Address)
    requires db.Valid()
    modifies db, db.Repr()
    ensures db.Valid() && db.SameObjects() && db.Kept() && db.Now() == Ensured(old(db.Now()), f)
  {
    hide StateDB.Valid, StateDB.Now, Shelf;
    var found := db.Exist(f);
    if !found {
      db.CreateAccount(f);
    }
  }

  method PreCheck(db: StateDB, msg: Message) returns (err: Option<TxError>)
    requires db.Valid()
    modifies db, db.Repr()
    ensures db.Valid() && db.SameObjects() && db.Kept() && db.Now() == Ensured(old(db.Now()), msg.from)
    ensures err == if NonceIn(old(db.Now()), msg.from) < msg.nonce then Some(NonceTooHigh)
                   else if NonceIn(old(db.Now()), msg.from) > msg.nonce then Some(NonceTooLow)
                   else None
  {
    hide StateDB.Valid, StateDB.Now, Shelf;
    From(db, msg.from);
    var nonce := db.GetNonce(msg.from);
    if nonce < msg.nonce {
      return Some(NonceTooHigh);
    } else if nonce > msg.nonce {
      return Some(NonceTooLow);
    }
    err := None;
  }

  /** A message is applied, or refused with nothing changed but that the sender's account exists. */
  method TransitionDb(db: StateDB, msg: Message, coinbase: Address) returns (err: Option<TxError>)
    requires db.Valid()
    modifies db, db.Repr()
    ensures db.Valid() && db.SameObjects() && db.lost <= old(db.lost)
    ensures err == Refusal(old(db.Now()), msg)
    ensures err == None ==> Provided(db.Now(), msg, coinbase, db.Marked())
    ensures db.Now() == if err == None then Transferred(old(db.Now()), msg, coinbase) else Ensured(old(db.Now()), msg.from)
  {
    hide StateDB.Valid, StateDB.Now, Shelf, Credit, Bump, Provided, Touches;
    err := PreCheck(db, msg);
    if err.Some? {
      return;
    }
    From(db, msg.from);
    ghost var v := db.Now();
    var revid := db.Snapshot();
    TouchesNone(db.journal);
    if msg.to == None {
      Abort(db, revid);
      return Some(ContractCreation);
    }
    err := Transfer(db, msg, coinbase, revid);
  }

  lemma {:induction false} TouchesNone(j: seq<JournalEntry>)
    ensures Touches(j[|j|..]) == {}
  {
  }

  /** Nothing was touched since the latest revision. */
  ghost predicate NoneTouched(db: StateDB)
    reads db
  {
    |db.validRevisions| > 0 &&
    var k := db.validRevisions[|db.validRevisions| - 1].journalIndex; k <= |db.journal| && Touches(db.journal[k..]) == {}
  }

  /** Return to the latest revision. */
  method Abort(db: StateDB, revid: nat)
    requires db.Valid() && Latest(db, revid) && NoneTouched(db)
    modifies db, db.Repr()
    ensures db.Valid() && db.SameObjects() && db.lost <= old(db.lost) && revid in old(db.taken) && db.Now() == old(db.taken)[revid]
  {
    hide StateDB.Valid, StateDB.Now, Shelf, Touches;
    assert db.validRevisions[|db.validRevisions| - 1].id == revid;
    var ok := db.RevertToSnapshot(revid);
  }

  ghost predicate Latest(db: StateDB, revid: nat)
    reads db
  {
    |db.validRevisions| > 0 && db.validRevisions[|db.validRevisions| - 1].id == revid
  }

  method Transfer(db: StateDB, msg: Message, coinbase: Address, revid: nat) returns (err: Option<TxError>)
    requires db.Valid() && Latest(db, revid) && msg.to.Some? && msg.from in db.Now().accts
    requires revid in db.taken && db.taken[revid] == db.Now()
    requires db.validRevisions[|db.validRevisions| - 1].journalIndex == |db.journal|
    modifies db, db.Repr()
    ensures db.Valid() && db.SameObjects() && db.lost <= old(db.lost)
    ensures err == None ==> Provided(db.Now(), msg, coinbase, db.Marked())
    ensures err == if BalanceIn(old(db.Now()), msg.from) < Fee(msg.value) + msg.value then Some(InsufficientBalance) else None
    ensures db.Now() == if err == None then Transferred(old(db.Now()), msg, coinbase) else old(db.Now())
  {
    hide StateDB.Valid, StateDB.Now, Shelf, Bump, Credit, Provided, Touches;
    ghost var v := db.Now();
    Increment(db, msg.from);
    BumpEffect(v, msg.from);
    var balance := db.GetBalance(msg.from);
    if balance < Fee(msg.value) + msg.value {
      Abort(db, revid);
      return Some(InsufficientBalance);
    }
    err := None;
    Pay(db, msg, coinbase);
  }

  method Increment(db: StateDB, sender: Address)
    requires db.Valid() && sender in db.Now().accts
    modifies db, db.Repr()
    ensures db.Valid() && db.SameObjects() && db.Kept() && db.Now() == Bump(old(db.Now()), sender)
    ensures sender in db.Marked() && old(db.journal) < db.journal && Touches(db.journal[|old(db.journal)|..]) == {}
  {
    hide StateDB.Valid, StateDB.Now, Shelf, Touches;
    var nonce := db.GetNonce(sender);
    db.SetNonce(sender, Next(nonce));
  }

  lemma {:induction false} EnsuredOther(v: View, a: Address, b: Address)
    ensures b != a ==> (b in Ensured(v, a).accts <==> b in v.accts) && (b in v.accts ==> Ensured(v, a).accts[b] == v.accts[b])
  {
  }

  method Pay(db: StateDB, msg: Message, coinbase: Address)
    requires db.Valid() && msg.to.Some? && msg.from in db.Marked()
    modifies db, db.Repr()
    ensures db.Valid() && db.SameObjects() && db.Kept() && Provided(db.Now(), msg, coinbase, db.Marked())
    ensures var fee := Fee(msg.value);
            db.Now() == Credit(Credit(Credit(old(db.Now()), msg.to.value, msg.value), coinbase, fee), msg.from, -(fee + msg.value))
  {
    hide StateDB.Valid, StateDB.Now, Shelf, Ensured;
    var fee := Fee(msg.value);
    db.AddBalance(msg.to.value, msg.value);
    ghost var to, v1 := msg.to.value, db.Now();
    assert to in v1.accts && (to in db.Marked() || !IsEmpty(v1.accts[to]));
    db.AddBalance(coinbase, fee);
    ghost var v2 := db.Now();
    assert coinbase in db.Marked() && (to != coinbase ==> to in v2.accts && v2.accts[to] == v1.accts[to]) by {
      EnsuredOther(v1, coinbase, to);
    }
    db.SubBalance(msg.from, fee + msg.value);
    EnsuredOther(v2, msg.from, to);
  }

  // ---- blocks ----

  function Gains(txs: seq<Message>, coinbase: Address, a: Address): int
    requires forall tx | tx in txs :: tx.to.Some?
  {
    if txs == [] then 0
    else Gains(txs[..|txs| - 1], coinbase, a) + Gain(txs[|txs| - 1], coinbase, a)
  }

  /** How many of the messages a sent. */
  function Sent(txs: seq<Message>, a: Address): nat {
    if txs == [] then 0
    else Sent(txs[..|txs| - 1], a) + if txs[|txs| - 1].from == a then 1 else 0
  }

  ghost predicate AllTo(txs: seq<Message>) {
    forall tx | tx in txs :: tx.to.Some?
  }

  /** The nonce of a after the messages: one more for each it sent, modulo 2 to the 64. */
  function NonceAfter(v: View, txs: seq<Message>, a: Address): Uint64 {
    (NonceIn(v, a) + Sent(txs, a)) % 0x1_0000_0000_0000_0000
  }

  /** From v to w: the messages are applied, and the coinbase receives the reward. */
  ghost predicate Outcome(v: View, w: View, txs: seq<Message>, coinbase: Address, reward: int) {
    && AllTo(txs) && NoneSuicided(w)
    && Total(w.accts) == Total(v.accts) + reward
    && (forall a :: BalanceIn(w, a) == BalanceIn(v, a) + Gains(txs, coinbase, a) + if a == coinbase then reward else 0)
    && (forall a :: NonceIn(w, a) == NonceAfter(v, txs, a))
  }

  /** Each message carries the nonce its sender has come to. */
  ghost predicate InSequence(v: View, txs: seq<Message>) {
    forall i :: 0 <= i < |txs| ==> txs[i].nonce == NonceAfter(v, txs[..i], txs[i].from)
  }

  lemma {:induction false} OutcomeNext(v: View, u: View, txs: seq<Message>, coinbase: Address, tx: Message, w: View)
    requires Outcome(v, u, txs, coinbase, 0) && Refusal(u, tx) == None
    requires Outcome(u, w, [tx], coinbase, 0)
    ensures Outcome(v, w, txs + [tx], coinbase, 0)
  {
    hide BalanceIn, NonceIn, Total, NoneSuicided, Gain;
    var all := txs + [tx];
    assert all[..|all| - 1] == txs && [tx][..0] == [];
    forall a ensures Gains([tx], coinbase, a) == Gain(tx, coinbase, a) && Sent([tx], a) == if tx.from == a then 1 else 0 {
    }
    forall a ensures NonceIn(w, a) == NonceAfter(v, all, a) {
    }
  }

  lemma {:induction false} InSequenceNext(v: View, u: View, txs: seq<Message>, coinbase: Address, tx: Message)
    requires InSequence(v, txs) && Outcome(v, u, txs, coinbase, 0) && Refusal(u, tx) == None
    ensures InSequence(v, txs + [tx])
  {
    hide NonceAfter, NonceIn, BalanceIn, Total, Gains, Sent, NoneSuicided;
    assert tx.nonce == NonceIn(u, tx.from) == NonceAfter(v, txs, tx.from);
    hide Outcome, Refusal;
    var all := txs + [tx];
    forall i | 0 <= i < |all| ensures all[i].nonce == NonceAfter(v, all[..i], all[i].from) {
      if i < |txs| {
        assert all[..i] == txs[..i] && all[i] == txs[i];
      } else {
        assert all[..i] == txs;
      }
    }
  }

  /** A transaction that is accepted is applied, and accounts left with nothing are cleared. */
  method ApplyTransaction(db: StateDB, msg: Message, coinbase: Address) returns (err: Option<TxError>)
    requires db.Valid()
    modifies db, db.Repr()
    ensures db.Valid() && db.SameObjects() && err == Refusal(old(db.Now()), msg)
    ensures db.Now() == if err == None then Swept(Transferred(old(db.Now()), msg, coinbase), db.dirty).(refund := 0) else Ensured(old(db.Now()), msg.from)
    ensures db.lost <= old(db.lost) && (err == None ==> forall a | a !in db.lost :: Persisted(db.Now().accts, db.accounts, a))
    ensures err == None ==> forall a | a in {msg.from, msg.to.value, coinbase} && a in db.Now().accts && a !in db.lost :: !IsSpent(db.Now().accts[a])
    ensures err == None && NoneSuicided(old(db.Now())) ==> Outcome(old(db.Now()), db.Now(), [msg], coinbase, 0)
    ensures err == None && NoneSuicided(old(db.Now())) && NoneNegative(old(db.Now())) && msg.value >= 0 ==> NoneNegative(db.Now())
  {
    hide StateDB.Valid, StateDB.Now, Shelf, Transferred, Total, Swept, Persisted, Provided;
    ghost var v := db.Now();
    err := TransitionDb(db, msg, coinbase);
    if err == None {
      ghost var w := db.Now();
      db.UnmarkedLive();
      SweptLive(w, msg, coinbase, db.dirty, db.lost);
      db.Finalise();
      if NoneSuicided(v) {
        Settled(v, msg, coinbase, w, db.Now(), db.dirty);
      }
    }
  }

  /** Clearing leaves no account that takes part and has come to nothing, unless its mark was lost. */
  lemma {:induction false} SweptLive(w: View, msg: Message, coinbase: Address, dirty: set<Address>, lost: set<Address>)
    requires msg.to.Some? && Provided(w, msg, coinbase, dirty + lost)
    requires forall a | a in w.accts && a !in dirty + lost :: !w.accts[a].suicided
    ensures forall a | a in {msg.from, msg.to.value, coinbase} && a in Swept(w, dirty).accts && a !in lost :: !IsSpent(Swept(w, dirty).accts[a])
  {
  }

  lemma {:induction false} Settled(v: View, msg: Message, coinbase: Address, w: View, w': View, dirty: set<Address>)
    requires Refusal(v, msg) == None && NoneSuicided(v) && w == Transferred(v, msg, coinbase)
    requires w' == Swept(w, dirty).(refund := 0)
    ensures Outcome(v, w', [msg], coinbase, 0)
    ensures NoneNegative(v) && msg.value >= 0 ==> NoneNegative(w')
  {
    hide Transferred, Total, Swept, Gain;
    TransferEffect(v, msg, coinbase);
    SweptEffect(w, dirty);
    assert [msg][..0] == [];
    forall a ensures BalanceIn(w', a) == BalanceIn(w, a) && NonceIn(w', a) == NonceIn(w, a) {
      assert BalanceIn(Swept(w, dirty), a) == BalanceIn(w, a);
    }
    forall a ensures Gains([msg], coinbase, a) == Gain(msg, coinbase, a) && NonceIn(w', a) == NonceAfter(v, [msg], a) {
      assert Sent([msg], a) == if msg.from == a then 1 else 0;
    }
    assert Total(w'.accts) == Total(v.accts);
    if NoneNegative(v) && msg.value >= 0 {
      TransferNonNegative(v, msg, coinbase);
    }
  }

  /** The block's reward, when an engine closes the block. */
  method Finalize(db: StateDB, coinbase: Address)
    requires db.Valid()
    modifies db, db.Repr()
    ensures db.Valid() && db.SameObjects() && db.Now() == Swept(Credit(old(db.Now()), coinbase, 5_000_000_000_000_000_000), db.dirty).(refund := 0)
    ensures db.lost == old(db.lost) && forall a | a !in db.lost :: Persisted(db.Now().accts, db.accounts, a)
    ensures NoneSuicided(old(db.Now())) ==> Outcome(old(db.Now()), db.Now(), [], coinbase, 5_000_000_000_000_000_000)
    ensures NoneSuicided(old(db.Now())) && NoneNegative(old(db.Now())) ==> NoneNegative(db.Now())
  {
    hide StateDB.Valid, StateDB.Now, Shelf, Total, Swept, Persisted;
    ghost var v := db.Now();
    db.AddBalance(coinbase, REWARD);
    assert db.Now() == Credit(v, coinbase, REWARD);
    CreditEffect(v, coinbase, REWARD);
    if NoneSuicided(v) {
      SweptEffect(db.Now(), db.dirty);
    }
    db.Finalise();
  }

  /** The states that applying the first messages went through, each message being accepted in its turn. */
  ghost predicate Applied(us: seq<View>, txs: seq<Message>, coinbase: Address) {
    0 < |us| <= |txs| + 1 &&
    forall i :: 0 <= i < |us| - 1 ==> Ran(us[i], us[i + 1], txs[i], coinbase)
  }

  /** The message is accepted in u and applied, and accounts left with nothing or ended are cleared. */
  ghost predicate Ran(u: View, w: View, msg: Message, coinbase: Address) {
    Refusal(u, msg) == None && exists dirty :: w == Swept(Transferred(u, msg, coinbase), dirty).(refund := 0)
  }

  /** A block that is accepted moves what its messages move, pays the reward, and no more. It is refused for the
      reason for which the first message that is not accepted in its turn is refused. */
  method Process(db: StateDB, txs: seq<Message>, coinbase: Address, engine: bool) returns (err: Option<TxError>, ghost us: seq<View>)
    requires db.Valid()
    modifies db, db.Repr()
    ensures db.Valid() && Applied(us, txs, coinbase) && us[0] == old(db.Now())
    ensures if err == None then |us| == |txs| + 1
            else var k := |us| - 1; k < |txs| && err == Refusal(us[k], txs[k]) && db.Now() == Ensured(us[k], txs[k].from)
    ensures db.lost <= old(db.lost)
    ensures err == None && (txs != [] || engine) ==> forall a | a !in db.lost :: Persisted(db.Now().accts, db.accounts, a)
    ensures err == None && NoneSuicided(old(db.Now())) ==> Outcome(old(db.Now()), db.Now(), txs, coinbase, if engine then 5_000_000_000_000_000_000 else 0)
    ensures err == None && NoneSuicided(old(db.Now())) ==> InSequence(old(db.Now()), txs)
    ensures err == None && NoneSuicided(old(db.Now())) && NoneNegative(old(db.Now())) && (forall tx | tx in txs :: tx.value >= 0) ==> NoneNegative(db.Now())
  {
    hide StateDB.Valid, StateDB.Now, Shelf, Outcome, InSequence, NoneNegative, Refusal, Ensured, Transferred, Swept, NoneSuicided, Persisted;
    ghost var v := db.Now();
    us := [v];
    ghost var live := NoneSuicided(v);
    if live {
      OutcomeNone(v, coinbase);
    }
    ghost var sound := NoneNegative(v) && forall tx | tx in txs :: tx.value >= 0;
    var i := 0;
    while i < |txs|
      invariant 0 <= i <= |txs| && db.Valid() && db.SameObjects()
      invariant live ==> Outcome(v, db.Now(), txs[..i], coinbase, 0) && InSequence(v, txs[..i])
      invariant live && sound ==> NoneNegative(db.Now())
      invariant db.lost <= old(db.lost) && (i > 0 ==> forall a | a !in db.lost :: Persisted(db.Now().accts, db.accounts, a))
      invariant Applied(us, txs, coinbase) && |us| == i + 1 && us[0] == v && us[i] == db.Now()
    {
      ghost var u := db.Now();
      if live {
        OutcomeLive(v, u, txs[..i], coinbase);
      }
      db.Prepare(txs[i].hash);
      err := ApplyTransaction(db, txs[i], coinbase);
      if err.Some? {
        return;
      }
      if live {
        OutcomeNext(v, u, txs[..i], coinbase, txs[i], db.Now());
        InSequenceNext(v, u, txs[..i], coinbase, txs[i]);
      }
      assert Ran(u, db.Now(), txs[i], coinbase);
      assert txs[..i + 1] == txs[..i] + [txs[i]];
      us := us + [db.Now()];
      i := i + 1;
    }
    assert txs[..i] == txs;
    err := None;
    if engine {
      ghost var u := db.Now();
      if live {
        OutcomeLive(v, u, txs, coinbase);
      }
      Finalize(db, coinbase);
      if live {
        OutcomeReward(v, u, txs, coinbase, db.Now());
      }
    }
  }

  lemma {:induction false} OutcomeNone(v: View, coinbase: Address)
    requires NoneSuicided(v)
    ensures Outcome(v, v, [], coinbase, 0) && InSequence(v, [])
  {
  }

  lemma {:induction false} OutcomeLive(v: View, w: View, txs: seq<Message>, coinbase: Address)
    requires Outcome(v, w, txs, coinbase, 0)
    ensures NoneSuicided(w)
  {
  }

  lemma {:induction false} OutcomeReward(v: View, u: View, txs: seq<Message>, coinbase: Address, w: View)
    requires Outcome(v, u, txs, coinbase, 0) && Outcome(u, w, [], coinbase, REWARD)
    ensures Outcome(v, w, txs, coinbase, REWARD)
  {
    hide BalanceIn, NonceIn, Total, NoneSuicided;
    forall a ensures Gains([], coinbase, a) == 0 && Sent([], a) == 0 {
    }
  }
}
