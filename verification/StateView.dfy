/** What a caller can observe of the state database, and what undoing one journal entry does to it. */
module StateView {
  import opened Options
  import opened HexKeys
  import opened NodeCodec

  type Address = Bytes
  type Word = nat
  type Uint64 = n: nat | n < 0x1_0000_0000_0000_0000

  const EMPTY_CODE: Digest := Keccak(BRaw([]))

  /** Words that are zero are not stored. */
  type Storage = map<Word, Word>

  function WordAt(s: Storage, k: Word): Word {
    if k in s then s[k] else 0
  }

  function WithWord(s: Storage, k: Word, w: Word): Storage {
    if w == 0 then s - {k} else s[k := w]
  }

  datatype Acct = Acct(nonce: Uint64, balance: int, storage: Storage, code: Option<Bytes>, codeHash: Digest, suicided: bool)

  datatype Log = Log(data: Bytes, txHash: Digest, index: int)

  datatype View = View(
    accts: map<Address, Acct>,
    refund: Uint64,
    logs: map<Digest, seq<Log>>,
    logSize: int,
    preimages: map<Digest, Bytes>
  )

  function BalanceIn(v: View, a: Address): int {
    if a in v.accts then v.accts[a].balance else 0
  }

  function NonceIn(v: View, a: Address): Uint64 {
    if a in v.accts then v.accts[a].nonce else 0
  }

  predicate IsEmpty(x: Acct) {
    x.nonce == 0 && x.balance == 0 && x.codeHash == EMPTY_CODE
  }

  /** An account that is removed when the state is finalised, if it is dirty. */
  predicate IsSpent(x: Acct) {
    x.suicided || IsEmpty(x)
  }

  function Swept(v: View, dirty: set<Address>): View {
    v.(accts := map a | a in v.accts && !(a in dirty && IsSpent(v.accts[a])) :: v.accts[a])
  }

  /** What goes: accounts of the dirty ones that ended, or have no nonce, no balance and no code. */
  lemma {:induction false} SweptAt(v: View, dirty: set<Address>, a: Address)
    ensures a in Swept(v, dirty).accts <==>
            && a in v.accts
            && (a in dirty ==> !v.accts[a].suicided && (v.accts[a].nonce != 0 || v.accts[a].balance != 0 || v.accts[a].codeHash != Keccak(BRaw([]))))
    ensures a in Swept(v, dirty).accts ==> Swept(v, dirty).accts[a] == v.accts[a]
    ensures Swept(v, dirty) == v.(accts := Swept(v, dirty).accts)
  {
  }

  lemma {:induction false} WordPut(s: Storage, k: Word, w: Word, j: Word)
    ensures WordAt(WithWord(s, k, w), j) == if j == k then w else WordAt(s, j)
  {
  }

  lemma {:induction false} SweptNext(v: View, done: set<Address>, a: Address)
    ensures Swept(Swept(v, done), {a}) == Swept(v, done + {a})
  {
  }

  lemma {:induction false} SweptNone(v: View)
    ensures Swept(v, {}) == v
  {
    assert Swept(v, {}).accts == v.accts;
  }

  /** A journal entry, with the account a reset replaced as a value. */
  datatype Delta =
    | Created(a: Address)
    | Reset(a: Address, was: Acct)
    | Suicided(a: Address, prev: bool, prevBalance: int)
    | BalanceSet(a: Address, balance: int)
    | NonceSet(a: Address, nonce: Uint64)
    | WordSet(a: Address, key: Word, word: Word)
    | CodeSet(a: Address, code: Option<Bytes>, codeHash: Digest)
    | RefundSet(refund: Uint64)
    | LogAdded(tx: Digest)
    | PreimageAdded(hash: Digest)
    | Touched(a: Address)

  /** The account a delta speaks about exists when the delta is undone. */
  predicate Applies(d: Delta, v: View) {
    match d
    case BalanceSet(a, _) => a in v.accts
    case NonceSet(a, _) => a in v.accts
    case WordSet(a, _, _) => a in v.accts
    case CodeSet(a, _, _) => a in v.accts
    case Created(a) => a in v.accts
    case Reset(a, _) => a in v.accts
    case Suicided(a, _, _) => a in v.accts
    case Touched(a) => a in v.accts
    case LogAdded(tx) => tx in v.logs && v.logs[tx] != []
    case PreimageAdded(h) => h in v.preimages
    case RefundSet(_) => true
  }

  function Undo(d: Delta, v: View): View
    requires Applies(d, v)
  {
    match d
    case Created(a) => v.(accts := v.accts - {a})
    case Reset(a, was) => v.(accts := v.accts[a := was])
    case Suicided(a, prev, prevBalance) => v.(accts := v.accts[a := v.accts[a].(suicided := prev, balance := prevBalance)])
    case BalanceSet(a, balance) => v.(accts := v.accts[a := v.accts[a].(balance := balance)])
    case NonceSet(a, nonce) => v.(accts := v.accts[a := v.accts[a].(nonce := nonce)])
    case WordSet(a, key, word) => v.(accts := v.accts[a := v.accts[a].(storage := WithWord(v.accts[a].storage, key, word))])
    case CodeSet(a, code, codeHash) => v.(accts := v.accts[a := v.accts[a].(code := code, codeHash := codeHash)])
    case RefundSet(refund) => v.(refund := refund)
    case LogAdded(tx) =>
      var logs := v.logs[tx];
      v.(logs := if |logs| == 1 then v.logs - {tx} else v.logs[tx := logs[..|logs| - 1]], logSize := v.logSize - 1)
    case PreimageAdded(h) => v.(preimages := v.preimages - {h})
    case Touched(_) => v
  }

  /** The view before each delta, and after the last. */
  ghost function At(history: seq<View>, now: View, i: nat): View
    requires i <= |history|
  {
    if i < |history| then history[i] else now
  }

  /** Undoing the deltas one by one from the last goes back through the history. */
  ghost predicate Chain(deltas: seq<Delta>, history: seq<View>, now: View) {
    && |deltas| == |history|
    && (forall i :: 0 <= i < |deltas| ==>
         Applies(deltas[i], At(history, now, i + 1)) && Undo(deltas[i], At(history, now, i + 1)) == history[i])
  }

  lemma {:induction false} ChainNext(deltas: seq<Delta>, history: seq<View>, v: View, d: Delta, v': View)
    requires Chain(deltas, history, v) && Applies(d, v') && Undo(d, v') == v
    ensures Chain(deltas + [d], history + [v], v')
    ensures forall i :: 0 <= i <= |history| ==> At(history + [v], v', i) == At(history, v, i)
  {
    hide Undo, Applies;
    var ds, hs := deltas + [d], history + [v];
    forall i | 0 <= i < |ds|
      ensures Applies(ds[i], At(hs, v', i + 1)) && Undo(ds[i], At(hs, v', i + 1)) == hs[i]
    {
      if i < |deltas| {
        assert At(hs, v', i + 1) == At(history, v, i + 1);
      }
    }
  }

  lemma {:induction false} ChainUndo(deltas: seq<Delta>, history: seq<View>, v: View)
    requires Chain(deltas, history, v) && deltas != []
    ensures var n := |deltas| - 1;
            && Applies(deltas[n], v) && Undo(deltas[n], v) == history[n]
            && Chain(deltas[..n], history[..n], history[n])
            && forall i :: 0 <= i <= n ==> At(history[..n], history[n], i) == At(history, v, i)
  {
    hide Undo, Applies;
    var n := |deltas| - 1;
    assert At(history, v, n + 1) == v;
    forall i | 0 <= i <= n ensures At(history[..n], history[n], i) == At(history, v, i) {
    }
  }

  // ---- each change is undone by its delta ----

  const NEW_ACCT: Acct := Acct(0, 0, map[], None, EMPTY_CODE, false)

  /** Changing an account that is not there creates it first. */
  function Ensured(v: View, a: Address): (r: View)
    ensures a in r.accts
  {
    if a in v.accts then v else WithAcct(v, a, NEW_ACCT)
  }

  function WithAcct(v: View, a: Address, x: Acct): View {
    v.(accts := v.accts[a := x])
  }

  lemma {:induction false} WithAcctTwice(v: View, a: Address, x: Acct, y: Acct)
    ensures WithAcct(WithAcct(v, a, x), a, y) == WithAcct(v, a, y)
  {
    assert v.accts[a := x][a := y] == v.accts[a := y];
  }

  lemma {:induction false} UndoCreated(v: View, a: Address, x: Acct)
    requires a !in v.accts
    ensures Applies(Created(a), WithAcct(v, a, x)) && Undo(Created(a), WithAcct(v, a, x)) == v
  {
    assert v.accts[a := x] - {a} == v.accts;
  }

  lemma {:induction false} UndoReset(v: View, a: Address, x: Acct)
    requires a in v.accts
    ensures Applies(Reset(a, v.accts[a]), WithAcct(v, a, x)) && Undo(Reset(a, v.accts[a]), WithAcct(v, a, x)) == v
  {
    assert v.accts[a := x][a := v.accts[a]] == v.accts;
  }

  lemma {:induction false} UndoBalance(v: View, a: Address, balance: int)
    requires a in v.accts
    ensures var d, v' := BalanceSet(a, v.accts[a].balance), WithAcct(v, a, v.accts[a].(balance := balance));
            Applies(d, v') && Undo(d, v') == v
  {
    var x := v.accts[a].(balance := balance);
    assert x.(balance := v.accts[a].balance) == v.accts[a];
    assert v.accts[a := x][a := v.accts[a]] == v.accts;
  }

  lemma {:induction false} UndoNonce(v: View, a: Address, nonce: Uint64)
    requires a in v.accts
    ensures var d, v' := NonceSet(a, v.accts[a].nonce), WithAcct(v, a, v.accts[a].(nonce := nonce));
            Applies(d, v') && Undo(d, v') == v
  {
    var x := v.accts[a].(nonce := nonce);
    assert x.(nonce := v.accts[a].nonce) == v.accts[a];
    assert v.accts[a := x][a := v.accts[a]] == v.accts;
  }

  lemma {:induction false} UndoSuicide(v: View, a: Address)
    requires a in v.accts
    ensures var d, v' := Suicided(a, v.accts[a].suicided, v.accts[a].balance), WithAcct(v, a, v.accts[a].(suicided := true, balance := 0));
            Applies(d, v') && Undo(d, v') == v
  {
    var x := v.accts[a].(suicided := true, balance := 0);
    assert x.(suicided := v.accts[a].suicided, balance := v.accts[a].balance) == v.accts[a];
    assert v.accts[a := x][a := v.accts[a]] == v.accts;
  }

  lemma {:induction false} UndoWord(v: View, a: Address, key: Word, word: Word)
    requires a in v.accts && forall k | k in v.accts[a].storage :: v.accts[a].storage[k] != 0
    ensures var d := WordSet(a, key, WordAt(v.accts[a].storage, key));
            var v' := WithAcct(v, a, v.accts[a].(storage := WithWord(v.accts[a].storage, key, word)));
            Applies(d, v') && Undo(d, v') == v
  {
    var s := v.accts[a].storage;
    var x := v.accts[a].(storage := WithWord(s, key, word));
    assert WithWord(WithWord(s, key, word), key, WordAt(s, key)) == s;
    assert x.(storage := s) == v.accts[a];
    assert v.accts[a := x][a := v.accts[a]] == v.accts;
  }

  lemma {:induction false} UndoCode(v: View, a: Address, code: Option<Bytes>, codeHash: Digest)
    requires a in v.accts
    ensures var d := CodeSet(a, v.accts[a].code, v.accts[a].codeHash);
            var v' := WithAcct(v, a, v.accts[a].(code := code, codeHash := codeHash));
            Applies(d, v') && Undo(d, v') == v
  {
    var x := v.accts[a].(code := code, codeHash := codeHash);
    assert x.(code := v.accts[a].code, codeHash := v.accts[a].codeHash) == v.accts[a];
    assert v.accts[a := x][a := v.accts[a]] == v.accts;
  }

  function WithLog(v: View, tx: Digest, log: Log): View {
    v.(logs := v.logs[tx := (if tx in v.logs then v.logs[tx] else []) + [log]], logSize := v.logSize + 1)
  }

  /** The log is the last one of its transaction; the others stay, and so does all else but the number of logs. */
  lemma {:induction false} LogAppended(v: View, tx: Digest, log: Log)
    ensures var v', before := WithLog(v, tx, log), if tx in v.logs then v.logs[tx] else [];
            && tx in v'.logs && |v'.logs[tx]| == |before| + 1 && before <= v'.logs[tx] && v'.logs[tx][|before|] == log
            && (forall t | t != tx :: (t in v'.logs <==> t in v.logs) && (t in v.logs ==> v'.logs[t] == v.logs[t]))
            && v' == v.(logs := v'.logs, logSize := v.logSize + 1)
  {
  }

  lemma {:induction false} UndoLog(v: View, tx: Digest, log: Log)
    requires tx in v.logs ==> v.logs[tx] != []
    ensures var v' := WithLog(v, tx, log); Applies(LogAdded(tx), v') && Undo(LogAdded(tx), v') == v
  {
    var logs := (if tx in v.logs then v.logs[tx] else []) + [log];
    if tx in v.logs {
      assert logs[..|logs| - 1] == v.logs[tx];
      assert v.logs[tx := logs][tx := v.logs[tx]] == v.logs;
    } else {
      assert v.logs[tx := logs] - {tx} == v.logs;
    }
  }

  lemma {:induction false} UndoPreimage(v: View, h: Digest, p: Bytes)
    requires h !in v.preimages
    ensures var v' := v.(preimages := v.preimages[h := p]);
            Applies(PreimageAdded(h), v') && Undo(PreimageAdded(h), v') == v
  {
    assert v.preimages[h := p] - {h} == v.preimages;
  }
}
