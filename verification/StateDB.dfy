/** The state database: account objects over the account trie, an undo journal and a stack of revisions. */
module StateDB {
  import opened Options
  import opened HexKeys
  import opened NodeCodec
  import opened StateView

  /** An account as the account trie stores it, with the contents of its storage trie. */
  datatype Account = Account(nonce: Uint64, balance: int, storage: Storage, codeHash: Digest)

  type Accounts = map<Address, Account>
  type Codes = map<Digest, Bytes>

  /** The one account that stays touched when its touching is undone. */
  const RIPEMD: Address := seq(19, _ => 0) + [3]

  const FRESH: Account := Account(0, 0, map[], EMPTY_CODE)

  class StateObject {
    const address: Address
    var data: Account
    var code: Option<Bytes>
    var cached: Storage
    /** The words still to be written to the storage trie. */
    var dirtyKeys: set<Word>
    var dirtyCode: bool
    var suicided: bool
    var touched: bool
    var deleted: bool
    /** The object has not yet reported that it is dirty. */
    var armed: bool

    constructor (address: Address, data: Account)
      ensures this.address == address && this.data == data && code == None && cached == map[] && dirtyKeys == {}
      ensures !dirtyCode && !suicided && !touched && !deleted && armed
    {
      this.address, this.data, code, cached, dirtyKeys := address, data, None, map[], {};
      dirtyCode, suicided, touched, deleted, armed := false, false, false, false, true;
    }

    /** A new account's object, which has reported itself dirty. */
    constructor Fresh(address: Address)
      ensures this.address == address && data == FRESH && code == None && cached == map[] && dirtyKeys == {}
      ensures !suicided && !touched && !deleted && !armed
    {
      this.address, data, code, cached, dirtyKeys := address, FRESH, None, map[], {};
      dirtyCode, suicided, touched, deleted, armed := false, false, false, false, false;
    }

    method WriteWord(key: Word, word: Word)
      modifies this`cached, this`dirtyKeys
      ensures cached == old(cached)[key := word] && dirtyKeys == old(dirtyKeys) + {key}
    {
      cached := cached[key := word];
      dirtyKeys := dirtyKeys + {key};
    }

    method WriteCode(codeHash: Digest, code: Option<Bytes>)
      modifies this`code, this`data, this`dirtyCode
      ensures this.code == code && data == old(data).(codeHash := codeHash) && dirtyCode
    {
      this.code, data, dirtyCode := code, data.(codeHash := codeHash), true;
    }

    method WriteSuicided(suicided: bool, balance: int)
      modifies this`suicided, this`data
      ensures this.suicided == suicided && data == old(data).(balance := balance)
    {
      this.suicided, data := suicided, data.(balance := balance);
    }

    /** Write the dirty words to the storage trie. */
    method UpdateTrie()
      modifies this`data, this`dirtyKeys
      ensures data == old(data).(storage := Flushed(old(data).storage, cached, old(dirtyKeys))) && dirtyKeys == {}
    {
      var storage := WriteWords(data.storage, cached, dirtyKeys);
      dirtyKeys := {};
      data := data.(storage := storage);
    }

    predicate Empty()
      reads this`data
    {
      data.nonce == 0 && data.balance == 0 && data.codeHash == EMPTY_CODE
    }
  }

  datatype JournalEntry =
    | CreateObjectChange(account: Address)
    | ResetObjectChange(obj: StateObject)
    | SuicideChange(account: Address, prevSuicided: bool, prevBalance: int)
    | BalanceChange(account: Address, balance: int)
    | NonceChange(account: Address, nonce: Uint64)
    | StorageChange(account: Address, key: Word, prevalue: Word)
    | CodeChange(account: Address, prevcode: Option<Bytes>, prevhash: Digest)
    | RefundChange(refund: Uint64)
    | AddLogChange(txhash: Digest)
    | AddPreimageChange(hash: Digest)
    | TouchChange(account: Address, prev: bool, prevDirty: bool)

  datatype Revision = Revision(id: nat, journalIndex: nat)

  // ---- what the objects show ----

  function Word0(cached: Storage, trie: Storage, k: Word): Word {
    if k in cached then cached[k] else WordAt(trie, k)
  }

  function Words(cached: Storage, trie: Storage): Storage {
    map k | k in cached.Keys + trie.Keys && Word0(cached, trie, k) != 0 :: Word0(cached, trie, k)
  }

  function CodeFrom(code: Option<Bytes>, codeHash: Digest, codes: Codes): Option<Bytes> {
    if code.Some? then code
    else if codeHash == EMPTY_CODE || codeHash !in codes then None
    else Some(codes[codeHash])
  }

  lemma {:induction false} WordsPut(cached: Storage, trie: Storage, k: Word, w: Word)
    ensures Words(cached[k := w], trie) == WithWord(Words(cached, trie), k, w)
  {
    var whole, parts := Words(cached[k := w], trie), WithWord(Words(cached, trie), k, w);
    forall x ensures x in whole <==> x in parts {
      if x != k {
        assert Word0(cached[k := w], trie, x) == Word0(cached, trie, x);
      }
    }
  }

  /** The storage trie after the cached words of keys are written to it. */
  function Flushed(trie: Storage, cached: Storage, keys: set<Word>): Storage {
    map k | k in trie.Keys + (keys * cached.Keys) && (k in keys && k in cached ==> cached[k] != 0) ::
      if k in keys && k in cached then cached[k] else trie[k]
  }

  lemma {:induction false} FlushedNext(trie: Storage, cached: Storage, keys: set<Word>, k: Word)
    requires k in cached
    ensures Flushed(trie, cached, keys + {k}) == WithWord(Flushed(trie, cached, keys), k, cached[k])
  {
  }

  lemma {:induction false} FlushedSkip(trie: Storage, cached: Storage, keys: set<Word>, k: Word)
    requires k !in cached
    ensures Flushed(trie, cached, keys + {k}) == Flushed(trie, cached, keys)
  {
  }

  lemma {:induction false} FlushedNone(trie: Storage, cached: Storage)
    ensures Flushed(trie, cached, {}) == trie
  {
  }

  method WriteWords(trie: Storage, cached: Storage, keys: set<Word>) returns (storage: Storage)
    ensures storage == Flushed(trie, cached, keys)
  {
    hide WithWord, Flushed;
    FlushedNone(trie, cached);
    storage := trie;
    var rest := keys;
    assert keys - rest == {};
    while rest != {}
      invariant rest <= keys && storage == Flushed(trie, cached, keys - rest)
      decreases |rest|
    {
      var key :| key in rest;
      var done := keys - rest;
      rest := rest - {key};
      assert keys - rest == done + {key};
      if key in cached {
        FlushedNext(trie, cached, done, key);
        storage := WithWord(storage, key, cached[key]);
      } else {
        FlushedSkip(trie, cached, done, key);
      }
    }
    assert keys - rest == keys;
  }

  /** Writing cached words to the trie shows nothing. */
  lemma {:induction false} WordsFlushed(cached: Storage, trie: Storage, keys: set<Word>)
    ensures Words(cached, Flushed(trie, cached, keys)) == Words(cached, trie)
  {
    var s, t := Words(cached, Flushed(trie, cached, keys)), Words(cached, trie);
    forall k ensures k in s <==> k in t {
      assert k !in cached ==> WordAt(Flushed(trie, cached, keys), k) == WordAt(trie, k);
    }
  }

  lemma {:induction false} WordsLoad(cached: Storage, trie: Storage, k: Word)
    ensures Words(cached[k := Word0(cached, trie, k)], trie) == Words(cached, trie)
  {
    WordsPut(cached, trie, k, Word0(cached, trie, k));
    WordsAt(cached, trie, k);
    var s := Words(cached, trie);
    assert WithWord(s, k, WordAt(s, k)) == s;
  }

  lemma {:induction false} WordsAt(cached: Storage, trie: Storage, k: Word)
    ensures WordAt(Words(cached, trie), k) == Word0(cached, trie, k)
  {
  }

  /** The cached words that are not to be written agree with the storage trie. */
  ghost predicate Clean(cached: Storage, dirtyKeys: set<Word>, trie: Storage) {
    forall k | k in cached && k !in dirtyKeys :: cached[k] == WordAt(trie, k)
  }

  ghost predicate Tidy(o: StateObject)
    reads o`cached, o`dirtyKeys, o`data
  {
    Clean(o.cached, o.dirtyKeys, o.data.storage)
  }

  ghost predicate AllTidy(objects: map<Address, StateObject>)
    reads objects.Values`cached, objects.Values`dirtyKeys, objects.Values`data
  {
    forall a | a in objects :: Tidy(objects[a])
  }

  lemma {:induction false} TidyAt(objects: map<Address, StateObject>, a: Address)
    requires AllTidy(objects) && a in objects
    ensures Tidy(objects[a]) && AllTidy(objects - {a})
  {
  }

  lemma {:induction false} TidyDrop(objects: map<Address, StateObject>, a: Address)
    requires AllTidy(objects)
    ensures AllTidy(objects - {a})
  {
  }

  lemma {:induction false} TidyJoin(objects: map<Address, StateObject>, a: Address)
    requires a in objects && AllTidy(objects - {a}) && Tidy(objects[a])
    ensures AllTidy(objects)
  {
    forall b | b in objects ensures Tidy(objects[b]) {
      assert b != a ==> (objects - {a})[b] == objects[b];
    }
  }

  lemma {:induction false} TidyPut(objects: map<Address, StateObject>, a: Address, o: StateObject)
    requires AllTidy(objects) && Tidy(o)
    ensures AllTidy(objects[a := o])
  {
  }

  lemma {:induction false} CleanNone(trie: Storage)
    ensures Clean(map[], {}, trie)
  {
  }

  lemma {:induction false} CleanPut(cached: Storage, dirtyKeys: set<Word>, trie: Storage, k: Word, w: Word)
    requires Clean(cached, dirtyKeys, trie)
    ensures Clean(cached[k := w], dirtyKeys + {k}, trie)
  {
  }

  lemma {:induction false} CleanFlushed(cached: Storage, dirtyKeys: set<Word>, trie: Storage)
    requires Clean(cached, dirtyKeys, trie)
    ensures Clean(cached, {}, Flushed(trie, cached, dirtyKeys))
  {
  }

  /** When no word is left to be written, the storage trie holds the words seen. */
  lemma {:induction false} CleanWords(cached: Storage, trie: Storage)
    requires Clean(cached, {}, trie)
    ensures forall k :: WordAt(Words(cached, trie), k) == WordAt(trie, k)
  {
    forall k ensures WordAt(Words(cached, trie), k) == WordAt(trie, k) {
      WordsAt(cached, trie, k);
    }
  }

  ghost function ObjectView(o: StateObject, codes: Codes): Acct
    reads o`data, o`cached, o`code, o`suicided
  {
    Acct(o.data.nonce, o.data.balance, Words(o.cached, o.data.storage), CodeFrom(o.code, o.data.codeHash, codes), o.data.codeHash, o.suicided)
  }

  ghost function AccountView(d: Account, codes: Codes): Acct {
    Acct(d.nonce, d.balance, Words(map[], d.storage), CodeFrom(None, d.codeHash, codes), d.codeHash, false)
  }

  lemma {:induction false} Ousted(objects: map<Address, StateObject>, a: Address, o: StateObject, prev: StateObject)
    requires prev !in (objects - {a}).Values && prev != o
    ensures prev !in objects[a := o].Values
  {
    assert objects[a := o] == (objects - {a})[a := o];
  }

  lemma {:induction false} BalanceSeen(o: StateObject, codes: Codes)
    ensures ObjectView(o, codes).balance == o.data.balance
  {
  }

  lemma {:induction false} FreshView(o: StateObject, codes: Codes)
    requires o.data == FRESH && o.code == None && o.cached == map[] && !o.suicided
    ensures ObjectView(o, codes) == NEW_ACCT
  {
    assert Words(map[], map[]) == map[];
  }

  ghost predicate Found(objects: map<Address, StateObject>, accounts: Accounts, a: Address)
    reads objects.Values`deleted
  {
    if a in objects then !objects[a].deleted else a in accounts
  }

  /** The accounts that can be seen: live objects first, then the trie. */
  ghost function Accts(objects: map<Address, StateObject>, accounts: Accounts, codes: Codes): map<Address, Acct>
    reads objects.Values`data, objects.Values`cached, objects.Values`code, objects.Values`suicided, objects.Values`deleted
  {
    map a | a in objects.Keys + accounts.Keys && Found(objects, accounts, a) ::
      if a in objects then ObjectView(objects[a], codes) else AccountView(accounts[a], codes)
  }

  /** One live object and all the rest. */
  lemma {:induction false} Focus(objects: map<Address, StateObject>, accounts: Accounts, codes: Codes, a: Address)
    requires a in objects && !objects[a].deleted
    ensures Accts(objects, accounts, codes) == Accts(objects - {a}, accounts - {a}, codes)[a := ObjectView(objects[a], codes)]
  {
    hide ObjectView, AccountView;
    var whole, rest := Accts(objects, accounts, codes), Accts(objects - {a}, accounts - {a}, codes);
    forall b ensures b in whole <==> b in rest[a := ObjectView(objects[a], codes)] {
    }
  }

  lemma {:induction false} RestLacks(objects: map<Address, StateObject>, accounts: Accounts, codes: Codes, a: Address)
    ensures a !in Accts(objects - {a}, accounts - {a}, codes)
  {
  }

  lemma {:induction false} FocusGone(objects: map<Address, StateObject>, accounts: Accounts, codes: Codes, a: Address)
    requires a in objects && objects[a].deleted
    ensures Accts(objects, accounts, codes) == Accts(objects - {a}, accounts - {a}, codes)
  {
    hide ObjectView, AccountView;
    var whole, rest := Accts(objects, accounts, codes), Accts(objects - {a}, accounts - {a}, codes);
    forall b ensures b in whole <==> b in rest {
    }
  }

  lemma {:induction false} Absent(objects: map<Address, StateObject>, accounts: Accounts, codes: Codes, a: Address)
    requires Proper(objects, accounts) && a !in Accts(objects, accounts, codes)
    ensures a !in accounts
  {
    assert a in accounts ==> !Found(objects, accounts, a);
  }

  lemma {:induction false} Apart(objects: map<Address, StateObject>, accounts: Accounts, a: Address)
    requires a in objects && Proper(objects, accounts)
    ensures objects[a] !in (objects - {a}).Values
  {
  }

  lemma {:induction false} Inserted(objects: map<Address, StateObject>, accounts: Accounts, codes: Codes, a: Address, o: StateObject)
    requires !o.deleted
    ensures Accts(objects[a := o], accounts, codes) == Accts(objects, accounts, codes)[a := ObjectView(o, codes)]
  {
    hide ObjectView, AccountView;
    var objects' := objects[a := o];
    var whole, rest := Accts(objects', accounts, codes), Accts(objects, accounts, codes);
    forall b ensures b in whole <==> b in rest[a := ObjectView(o, codes)] {
      if b != a {
        assert Found(objects', accounts, b) == Found(objects, accounts, b);
      }
    }
  }

  lemma {:induction false} Loaded(objects: map<Address, StateObject>, accounts: Accounts, codes: Codes, a: Address, o: StateObject)
    requires !o.deleted && a !in objects && a in accounts && ObjectView(o, codes) == AccountView(accounts[a], codes)
    ensures Accts(objects[a := o], accounts, codes) == Accts(objects, accounts, codes)
  {
    hide ObjectView, AccountView;
    Inserted(objects, accounts, codes, a, o);
    assert Found(objects, accounts, a);
  }

  lemma {:induction false} Dropped(objects: map<Address, StateObject>, accounts: Accounts, codes: Codes, a: Address)
    requires a !in accounts
    ensures Accts(objects - {a}, accounts, codes) == Accts(objects, accounts, codes) - {a}
  {
    hide ObjectView, AccountView;
    var whole, rest := Accts(objects, accounts, codes), Accts(objects - {a}, accounts, codes);
    forall b ensures b in rest <==> b in whole - {a} {
      if b != a {
        assert Found(objects - {a}, accounts, b) == Found(objects, accounts, b);
      }
    }
  }

  // ---- the journal ----

  /** The objects set aside by resets. */
  ghost function Shelf(j: seq<JournalEntry>): set<StateObject> {
    set i | 0 <= i < |j| && j[i].ResetObjectChange? :: j[i].obj
  }

  ghost function DeltaOf(e: JournalEntry, codes: Codes): Delta
    reads if e.ResetObjectChange? then {e.obj} else {}
  {
    match e
    case CreateObjectChange(a) => Created(a)
    case ResetObjectChange(o) => Reset(o.address, ObjectView(o, codes))
    case SuicideChange(a, prev, balance) => Suicided(a, prev, balance)
    case BalanceChange(a, balance) => BalanceSet(a, balance)
    case NonceChange(a, nonce) => NonceSet(a, nonce)
    case StorageChange(a, key, prev) => WordSet(a, key, prev)
    case CodeChange(a, code, hash) => CodeSet(a, code, hash)
    case RefundChange(refund) => RefundSet(refund)
    case AddLogChange(tx) => LogAdded(tx)
    case AddPreimageChange(hash) => PreimageAdded(hash)
    case TouchChange(a, _, _) => Touched(a)
  }

  /** Code that is recorded as missing cannot be loaded, and a created account was not in the trie. */
  predicate EntrySound(e: JournalEntry, accounts: Accounts, codes: Codes) {
    && (e.CodeChange? && e.prevcode == None ==> CodeFrom(None, e.prevhash, codes) == None)
    && (e.CreateObjectChange? ==> e.account !in accounts)
  }

  ghost predicate Matches(j: seq<JournalEntry>, deltas: seq<Delta>, accounts: Accounts, codes: Codes)
    reads Shelf(j)
  {
    |j| == |deltas| && forall i :: 0 <= i < |j| ==>
      && (j[i].ResetObjectChange? ==> j[i].obj in Shelf(j) && Tidy(j[i].obj))
      && deltas[i] == DeltaOf(j[i], codes) && EntrySound(j[i], accounts, codes)
  }

  ghost predicate Shelved(j: seq<JournalEntry>, objects: map<Address, StateObject>)
    reads Shelf(j)`deleted
  {
    && (forall o | o in Shelf(j) :: !o.deleted && o !in objects.Values)
    && (forall i, k :: 0 <= i < k < |j| && j[i].ResetObjectChange? && j[k].ResetObjectChange? ==> j[i].obj != j[k].obj)
  }

  ghost predicate Proper(objects: map<Address, StateObject>, accounts: Accounts)
    reads objects.Values`deleted
  {
    forall a | a in objects :: objects[a].address == a && (objects[a].deleted ==> a !in accounts)
  }

  /** Only accounts that ended or came to nothing are deleted. */
  ghost predicate Spent(objects: map<Address, StateObject>)
    reads objects.Values`deleted, objects.Values`suicided, objects.Values`data
  {
    forall a | a in objects && objects[a].deleted :: objects[a].suicided || objects[a].Empty()
  }

  lemma {:induction false} LivePut(j: seq<JournalEntry>, objects: map<Address, StateObject>, accounts: Accounts, a: Address, o: StateObject)
    requires Proper(objects, accounts) && Spent(objects) && Shelved(j, objects) && o.address == a && !o.deleted && o !in Shelf(j)
    ensures Proper(objects[a := o], accounts) && Spent(objects[a := o]) && Shelved(j, objects[a := o])
  {
    forall x | x in Shelf(j) ensures x !in objects[a := o].Values {
    }
  }

  // ---- marks ----

  /** The account is seen as the trie shows it. */
  ghost predicate Same(accts: map<Address, Acct>, accounts: Accounts, codes: Codes, a: Address) {
    (a in accts <==> a in accounts) && (a in accts ==> accts[a] == AccountView(accounts[a], codes))
  }

  /** All but the marked accounts are seen as the trie shows them. */
  ghost predicate InTrie(accts: map<Address, Acct>, accounts: Accounts, codes: Codes, marked: set<Address>) {
    forall a | a !in marked :: Same(accts, accounts, codes, a)
  }

  /** An object that has reported itself dirty is marked. */
  ghost predicate Booked(objects: map<Address, StateObject>, marked: set<Address>)
    reads objects.Values`armed
  {
    forall a | a in objects && !objects[a].armed :: a in marked
  }

  ghost predicate NoReset(j: seq<JournalEntry>, a: Address) {
    forall i :: 0 <= i < |j| && j[i].ResetObjectChange? ==> j[i].obj.address != a
  }

  /** What a reset replaced is marked, and nothing is created where something was reset before. */
  ghost predicate Logged(j: seq<JournalEntry>, marked: set<Address>) {
    && (forall i :: 0 <= i < |j| && j[i].ResetObjectChange? ==> j[i].obj.address in marked)
    && (forall k :: 0 <= k < |j| && j[k].CreateObjectChange? ==> NoReset(j[..k], j[k].account))
  }

  lemma {:induction false} InTrieAt(accts: map<Address, Acct>, accts': map<Address, Acct>, accounts: Accounts, codes: Codes,
                                    marked: set<Address>, marked': set<Address>, a: Address)
    requires InTrie(accts, accounts, codes, marked) && OnlyAt(accts, accts', a) && a in marked' && marked <= marked'
    ensures InTrie(accts', accounts, codes, marked')
  {
    forall b | b !in marked' ensures Same(accts', accounts, codes, b) {
      assert Same(accts, accounts, codes, b);
    }
  }

  lemma {:induction false} InTrieMore(accts: map<Address, Acct>, accounts: Accounts, codes: Codes, marked: set<Address>, marked': set<Address>)
    requires InTrie(accts, accounts, codes, marked) && marked <= marked'
    ensures InTrie(accts, accounts, codes, marked')
  {
  }

  lemma {:induction false} InTrieGone(accts: map<Address, Acct>, accounts: Accounts, codes: Codes, marked: set<Address>, marked': set<Address>, a: Address)
    requires InTrie(accts, accounts, codes, marked) && a !in accounts && marked - {a} <= marked'
    ensures InTrie(accts - {a}, accounts, codes, marked')
  {
    forall b | b !in marked' ensures Same(accts - {a}, accounts, codes, b) {
      assert b != a ==> Same(accts, accounts, codes, b);
    }
  }

  lemma {:induction false} InTrieSwept(accts: map<Address, Acct>, accounts: Accounts, accts': map<Address, Acct>, accounts': Accounts, codes: Codes,
                                       marked: set<Address>, a: Address)
    requires InTrie(accts, accounts, codes, marked) && OnlyAt(accts, accts', a) && OnlyAt(accounts, accounts', a) && a in marked
    ensures InTrie(accts', accounts', codes, marked)
  {
    forall b | b !in marked ensures Same(accts', accounts', codes, b) {
      assert Same(accts, accounts, codes, b);
    }
  }

  lemma {:induction false} WithAcctOnlyAt(v: View, a: Address, x: Acct)
    ensures OnlyAt(v.accts, WithAcct(v, a, x).accts, a)
  {
  }

  lemma {:induction false} LoggedMore(j: seq<JournalEntry>, marked: set<Address>, marked': set<Address>)
    requires Logged(j, marked) && marked <= marked'
    ensures Logged(j, marked')
  {
  }

  lemma {:induction false} LoggedDrop(j: seq<JournalEntry>, marked: set<Address>, marked': set<Address>, a: Address)
    requires Logged(j, marked) && NoReset(j, a) && marked - {a} <= marked'
    ensures Logged(j, marked')
  {
  }

  lemma {:induction false} LoggedNext(j: seq<JournalEntry>, marked: set<Address>, e: JournalEntry)
    requires Logged(j, marked) && (e.ResetObjectChange? ==> e.obj.address in marked) && (e.CreateObjectChange? ==> NoReset(j, e.account))
    ensures Logged(j + [e], marked)
  {
    var j' := j + [e];
    forall k | 0 <= k < |j'| && j'[k].CreateObjectChange? ensures NoReset(j'[..k], j'[k].account) {
      assert j'[..k] == if k < |j| then j[..k] else j;
    }
  }

  lemma {:induction false} LoggedPop(j: seq<JournalEntry>, marked: set<Address>)
    requires Logged(j, marked) && j != []
    ensures var n := |j| - 1;
            && Logged(j[..n], marked) && (j[n].ResetObjectChange? ==> j[n].obj.address in marked)
            && (j[n].CreateObjectChange? ==> NoReset(j[..n], j[n].account))
  {
    var n := |j| - 1;
    forall k | 0 <= k < n && j[..n][k].CreateObjectChange? ensures NoReset(j[..n][..k], j[..n][k].account) {
      assert j[..n][..k] == j[..k];
    }
  }

  lemma {:induction false} UndoWithin(d: Delta, v: View, a: Address)
    requires Applies(d, v) && a in Undo(d, v).accts
    ensures a in v.accts
  {
  }

  /** Undoing never brings back an account that is seen nowhere later: accounts only appear as changes go on. */
  lemma {:induction false} OnceSeen(deltas: seq<Delta>, history: seq<View>, now: View, i: nat, a: Address)
    requires Chain(deltas, history, now) && i <= |history| && a in At(history, now, i).accts
    ensures a in now.accts
    decreases |history| - i
  {
    hide Applies, Undo;
    if i < |history| {
      UndoWithin(deltas[i], At(history, now, i + 1), a);
      OnceSeen(deltas, history, now, i + 1, a);
    }
  }

  /** Where no account is seen, none was reset. */
  lemma {:induction false} NoResetAbsent(j: seq<JournalEntry>, deltas: seq<Delta>, history: seq<View>, now: View, accounts: Accounts, codes: Codes, a: Address)
    requires Matches(j, deltas, accounts, codes) && Chain(deltas, history, now) && a !in now.accts
    ensures NoReset(j, a)
  {
    forall i | 0 <= i < |j| && j[i].ResetObjectChange? ensures j[i].obj.address != a {
      assert deltas[i] == DeltaOf(j[i], codes);
      assert Applies(deltas[i], At(history, now, i + 1)) && Undo(deltas[i], At(history, now, i + 1)) == history[i];
      if a in history[i].accts {
        OnceSeen(deltas, history, now, i, a);
      }
    }
  }

  /** Undoing the entry takes a mark: it is the first touch of an account that had none. One address is spared. */
  ghost predicate Unmarks(e: JournalEntry) {
    e.TouchChange? && !e.prev && !e.prevDirty && e.account != seq(19, _ => 0) + [3]
  }

  /** Accounts that lose their mark if j is undone. */
  ghost function Touches(j: seq<JournalEntry>): set<Address> {
    set i | 0 <= i < |j| && Unmarks(j[i]) :: j[i].account
  }

  lemma {:induction false} TouchesOne(e: JournalEntry)
    ensures Touches([e]) == if Unmarks(e) then {e.account} else {}
  {
    assert [e][0] == e;
  }

  lemma {:induction false} TouchesMore(e: JournalEntry, j: seq<JournalEntry>)
    ensures Touches([e] + j) == Touches([e]) + Touches(j)
  {
    var all := [e] + j;
    forall i | 0 <= i < |j| ensures all[i + 1] == j[i] {
    }
    assert all[0] == e == [e][0];
  }

  /** Each revision remembers where in the history it was taken. */
  ghost predicate Revised(revisions: seq<Revision>, next: nat, taken: map<nat, View>, history: seq<View>, now: View) {
    && (forall i, k :: 0 <= i < k < |revisions| ==> revisions[i].id < revisions[k].id && revisions[i].journalIndex <= revisions[k].journalIndex)
    && (forall i :: 0 <= i < |revisions| ==>
         && revisions[i].id < next && revisions[i].id in taken && revisions[i].journalIndex <= |history|
         && taken[revisions[i].id] == At(history, now, revisions[i].journalIndex))
  }

  lemma {:induction false} RevisedNext(revisions: seq<Revision>, next: nat, taken: map<nat, View>, history: seq<View>, v: View, v': View)
    requires Revised(revisions, next, taken, history, v)
    ensures Revised(revisions, next, taken, history + [v], v')
  {
  }

  lemma {:induction false} MatchesNext(j: seq<JournalEntry>, deltas: seq<Delta>, accounts: Accounts, codes: Codes, e: JournalEntry)
    requires Matches(j, deltas, accounts, codes) && EntrySound(e, accounts, codes) && (e.ResetObjectChange? ==> Tidy(e.obj))
    ensures Matches(j + [e], deltas + [DeltaOf(e, codes)], accounts, codes)
    ensures Shelf(j + [e]) == Shelf(j) + if e.ResetObjectChange? then {e.obj} else {}
  {
    ShelfNext(j, e);
    hide DeltaOf, EntrySound, Tidy;
    var j', ds := j + [e], deltas + [DeltaOf(e, codes)];
    forall i | 0 <= i < |j'| ensures (j'[i].ResetObjectChange? ==> j'[i].obj in Shelf(j') && Tidy(j'[i].obj)) && ds[i] == DeltaOf(j'[i], codes) && EntrySound(j'[i], accounts, codes) {
      if i < |j| {
        assert j'[i] == j[i];
      }
    }
  }

  /** Without its last entry, the journal is in order for the view before it. */
  lemma {:induction false} MatchesPop(j: seq<JournalEntry>, deltas: seq<Delta>, accounts: Accounts, codes: Codes)
    requires Matches(j, deltas, accounts, codes) && j != []
    ensures var n := |j| - 1; Matches(j[..n], deltas[..n], accounts, codes) && Shelf(j[..n]) <= Shelf(j)
    ensures var e := j[|j| - 1]; e.ResetObjectChange? ==> Tidy(e.obj)
  {
    hide DeltaOf, EntrySound, Tidy;
    var n := |j| - 1;
    assert j == j[..n] + [j[n]];
    ShelfNext(j[..n], j[n]);
    forall i | 0 <= i < n && j[i].ResetObjectChange? ensures j[i].obj in Shelf(j[..n]) {
      assert j[..n][i] == j[i];
    }
  }

  lemma {:induction false} ShelvedPop(j: seq<JournalEntry>, objects: map<Address, StateObject>)
    requires Shelved(j, objects) && j != []
    ensures var n := |j| - 1;
            Shelved(j[..n], objects) && (j[n].ResetObjectChange? ==> j[n].obj !in Shelf(j[..n]) && j[n].obj in Shelf(j))
  {
    var n := |j| - 1;
    assert j == j[..n] + [j[n]];
    ShelfNext(j[..n], j[n]);
  }

  lemma {:induction false} RevisedPop(revisions: seq<Revision>, next: nat, taken: map<nat, View>, history: seq<View>, now: View)
    requires Revised(revisions, next, taken, history, now) && history != []
    requires forall i :: 0 <= i < |revisions| ==> revisions[i].journalIndex < |history|
    ensures Revised(revisions, next, taken, history[..|history| - 1], history[|history| - 1])
  {
  }

  ghost predicate Ascending(revisions: seq<Revision>) {
    forall i, k :: 0 <= i < k < |revisions| ==> revisions[i].id < revisions[k].id
  }

  /** The first revision whose id is at least id. */
  method Search(revisions: seq<Revision>, id: nat) returns (idx: nat)
    requires Ascending(revisions)
    ensures idx <= |revisions|
    ensures forall i :: 0 <= i < idx ==> revisions[i].id < id
    ensures forall i :: idx <= i < |revisions| ==> revisions[i].id >= id
  {
    var hi := |revisions|;
    idx := 0;
    while idx < hi
      invariant idx <= hi <= |revisions|
      invariant forall i :: 0 <= i < idx ==> revisions[i].id < id
      invariant forall i :: hi <= i < |revisions| ==> revisions[i].id >= id
    {
      var mid := (idx + hi) / 2;
      if revisions[mid].id < id {
        idx := mid + 1;
      } else {
        hi := mid;
      }
    }
  }

  /** Cutting the stack of revisions keeps the earlier ones in order. */
  lemma {:induction false} RevisedCut(revisions: seq<Revision>, next: nat, taken: map<nat, View>, history: seq<View>, now: View, idx: nat)
    requires Revised(revisions, next, taken, history, now) && idx < |revisions|
    ensures Revised(revisions[..idx], next, taken, history, now) && Within(revisions[..idx], revisions[idx].journalIndex)
    ensures revisions[idx].journalIndex <= |history| && revisions[idx].id in taken
    ensures taken[revisions[idx].id] == At(history, now, revisions[idx].journalIndex)
  {
  }

  lemma {:induction false} RevisedAscending(revisions: seq<Revision>, next: nat, taken: map<nat, View>, history: seq<View>, now: View)
    requires Revised(revisions, next, taken, history, now)
    ensures Ascending(revisions)
  {
  }

  lemma {:induction false} RevisedPush(revisions: seq<Revision>, next: nat, taken: map<nat, View>, history: seq<View>, now: View)
    requires Revised(revisions, next, taken, history, now)
    ensures Revised(revisions + [Revision(next, |history|)], next + 1, taken[next := now], history, now)
  {
  }

  /** Only revisions at or before index n of the journal. */
  ghost predicate Within(revisions: seq<Revision>, n: nat) {
    forall i :: 0 <= i < |revisions| ==> revisions[i].journalIndex <= n
  }

  lemma {:induction false} ShelvedNext(j: seq<JournalEntry>, objects: map<Address, StateObject>, e: JournalEntry)
    requires Shelved(j, objects)
    requires e.ResetObjectChange? ==> e.obj !in Shelf(j) && e.obj !in objects.Values && !e.obj.deleted
    ensures Shelved(j + [e], objects)
  {
    ShelfNext(j, e);
    var j' := j + [e];
    forall i, k | 0 <= i < k < |j'| && j'[i].ResetObjectChange? && j'[k].ResetObjectChange? ensures j'[i].obj != j'[k].obj {
      if k == |j| {
        assert j[i].obj in Shelf(j);
      }
    }
  }

  lemma {:induction false} ShelfNext(j: seq<JournalEntry>, e: JournalEntry)
    ensures Shelf(j + [e]) == Shelf(j) + if e.ResetObjectChange? then {e.obj} else {}
  {
    var j' := j + [e];
    forall o ensures o in Shelf(j') <==> o in Shelf(j) || (e.ResetObjectChange? && o == e.obj) {
      if o in Shelf(j) {
        var i :| 0 <= i < |j| && j[i].ResetObjectChange? && j[i].obj == o;
        assert j'[i].obj == o;
      }
      if e.ResetObjectChange? && o == e.obj {
        assert j'[|j|].obj == o;
      }
    }
  }

  // ---- finalising ----

  /** The trie holds what is seen of account a, with its storage, or nothing if it is not seen. */
  ghost predicate Persisted(accts: map<Address, Acct>, accounts: Accounts, a: Address) {
    if a in accts then
      && a in accounts && accounts[a].nonce == accts[a].nonce
      && accounts[a].balance == accts[a].balance && accounts[a].codeHash == accts[a].codeHash
      && (forall k :: WordAt(accounts[a].storage, k) == WordAt(accts[a].storage, k))
    else a !in accounts
  }

  ghost predicate OnlyAt<T>(m: map<Address, T>, m': map<Address, T>, a: Address) {
    && (forall b | b != a :: b in m' <==> b in m)
    && (forall b | b != a && b in m' :: m'[b] == m[b])
  }

  lemma {:induction false} PersistedKept(accts: map<Address, Acct>, accounts: Accounts, accts': map<Address, Acct>, accounts': Accounts, a: Address, b: Address)
    requires OnlyAt(accts, accts', a) && OnlyAt(accounts, accounts', a) && b != a && Persisted(accts, accounts, b)
    ensures Persisted(accts', accounts', b)
  {
  }

  ghost predicate AgreeOff<T>(m: map<Address, T>, m': map<Address, T>, dirty: set<Address>) {
    forall b | b !in dirty :: (b in m <==> b in m') && (b in m ==> m[b] == m'[b])
  }

  lemma {:induction false} AgreeNext<T>(m: map<Address, T>, m': map<Address, T>, m'': map<Address, T>, dirty: set<Address>, a: Address)
    requires AgreeOff(m, m', dirty) && OnlyAt(m', m'', a) && a in dirty
    ensures AgreeOff(m, m'', dirty)
  {
  }

  lemma {:induction false} AgreeSame<T>(m: map<Address, T>, dirty: set<Address>)
    ensures AgreeOff(m, m, dirty)
  {
  }

  lemma {:induction false} SweptOff(v: View, dirty: set<Address>)
    ensures AgreeOff(v.accts, Swept(v, dirty).accts, dirty)
  {
  }

  lemma {:induction false} PersistedOff(accts: map<Address, Acct>, accounts: Accounts, accts': map<Address, Acct>, accounts': Accounts, dirty: set<Address>)
    requires AgreeOff(accts, accts', dirty) && AgreeOff(accounts, accounts', dirty)
    requires forall a | a in dirty :: Persisted(accts', accounts', a)
    ensures forall a :: Persisted(accts', accounts', a) <==> a in dirty || Persisted(accts, accounts, a)
  {
  }

  lemma {:induction false} SamePersisted(accts: map<Address, Acct>, accounts: Accounts, codes: Codes, a: Address)
    requires Same(accts, accounts, codes, a)
    ensures Persisted(accts, accounts, a)
  {
    if a in accts {
      forall k ensures WordAt(accounts[a].storage, k) == WordAt(accts[a].storage, k) {
        WordsAt(map[], accounts[a].storage, k);
      }
    }
  }

  lemma {:induction false} SweptOnlyAt(v: View, a: Address)
    ensures OnlyAt(v.accts, Swept(v, {a}).accts, a)
  {
  }

  // ---- the database ----

  class StateDB {
    var codes: Codes
    var accounts: Accounts
    var objects: map<Address, StateObject>
    var dirty: set<Address>
    var refund: Uint64
    var thash: Digest
    var logs: map<Digest, seq<Log>>
    var logSize: int
    var preimages: map<Digest, Bytes>
    var journal: seq<JournalEntry>
    var validRevisions: seq<Revision>
    var nextRevisionId: nat
    /** Accounts that lost their mark when the touch that set it was undone. */
    ghost var lost: set<Address>
    ghost var deltas: seq<Delta>
    ghost var history: seq<View>
    /** What could be seen when a revision was taken. */
    ghost var taken: map<nat, View>

    ghost function Repr(): set<StateObject>
      reads this
    {
      objects.Values + Shelf(journal)
    }

    ghost function Now(): View
      reads this`objects, this`accounts, this`codes, this`refund, this`logs, this`logSize, this`preimages,
            objects.Values`data, objects.Values`cached, objects.Values`code, objects.Values`suicided, objects.Values`deleted
    {
      View(Accts(objects, accounts, codes), refund, logs, logSize, preimages)
    }

    ghost predicate Base()
      reads this`objects, this`accounts, this`dirty, this`logs, objects.Values`deleted, objects.Values`suicided, objects.Values`data,
            objects.Values`cached, objects.Values`dirtyKeys, objects.Values`armed, this`lost
    {
      Ground() && AllTidy(objects) && Booked(objects, Marked())
    }

    ghost function Marked(): set<Address>
      reads this`dirty, this`lost
    {
      dirty + lost
    }

    ghost predicate Synced()
      reads this`objects, this`accounts, this`codes, this`refund, this`logs, this`logSize, this`preimages, this`dirty, this`lost,
            objects.Values`data, objects.Values`cached, objects.Values`code, objects.Values`suicided, objects.Values`deleted
    {
      InTrie(Now().accts, accounts, codes, Marked())
    }

    ghost predicate Ground()
      reads this`objects, this`accounts, this`dirty, this`logs, objects.Values`deleted, objects.Values`suicided, objects.Values`data
    {
      Proper(objects, accounts) && Spent(objects) && dirty <= objects.Keys && forall tx | tx in logs :: logs[tx] != []
    }

    /** The journal j and the revisions are in order for view v. */
    ghost predicate Past(j: seq<JournalEntry>, v: View)
      reads this`accounts, this`codes, this`deltas, this`history, this`validRevisions, this`nextRevisionId, this`taken, Shelf(j)
    {
      && Matches(j, deltas, accounts, codes) && Chain(deltas, history, v)
      && Revised(validRevisions, nextRevisionId, taken, history, v)
    }

    ghost predicate Prior(j: seq<JournalEntry>, v: View)
      reads this`objects, this`accounts, this`codes, this`deltas, this`history, this`validRevisions, this`nextRevisionId, this`taken,
            this`dirty, this`lost, Shelf(j)
    {
      Shelved(j, objects) && Past(j, v) && Logged(j, Marked())
    }

    ghost predicate Valid()
      reads this, Repr()
    {
      Base() && Prior(journal, Now()) && Synced()
    }

    ghost predicate Owns(o: StateObject)
      reads this`objects, o`deleted
    {
      o.address in objects && objects[o.address] == o && !o.deleted
    }

    constructor (accounts: Accounts, codes: Codes)
      ensures Valid() && this.accounts == accounts && this.codes == codes && objects == map[] && journal == []
      ensures validRevisions == [] && logs == map[] && refund == 0 && dirty == {} && lost == {}
    {
      this.accounts, this.codes, objects, dirty := accounts, codes, map[], {};
      refund, thash, logs, logSize, preimages := 0, ZeroHash, map[], 0, map[];
      journal, validRevisions, nextRevisionId := [], [], 0;
      deltas, history, taken, lost := [], [], map[], {};
      new;
      hide Now, InTrie;
      NothingLoaded();
    }

    lemma {:induction false} NothingLoaded()
      requires objects == map[] && dirty == {} && lost == {}
      ensures Synced()
    {
    }

    /** Only what is seen of the account of o differs. */
    twostate predicate OnlyAccount(o: StateObject)
      requires o.address in objects
      reads this`objects, this`accounts, this`codes, this`refund, this`logs, this`logSize, this`preimages,
            objects.Values`data, objects.Values`cached, objects.Values`code, objects.Values`suicided, objects.Values`deleted,
            o`data, o`cached, o`code, o`suicided
    {
      Now() == WithAcct(old(Now()), o.address, ObjectView(o, codes))
    }

    method MarkDirty(o: StateObject)
      requires o.address in objects
      modifies this`dirty, o`armed
      ensures dirty == old(dirty) + (if old(o.armed) then {o.address} else {}) && !o.armed
    {
      if o.armed {
        dirty := dirty + {o.address};
        o.armed := false;
      }
    }

    /** A changed object reports itself dirty; the rest of the accounts is as before. */
    method Settle(o: StateObject, ghost rest: map<Address, Acct>, ghost j: seq<JournalEntry>, ghost v: View)
      requires Base() && Owns(o) && o !in Shelf(j) && Prior(j, v) && rest == Accts(objects - {o.address}, accounts - {o.address}, codes)
      modifies this`dirty, o`armed
      ensures Base() && Owns(o) && Prior(j, v) && ObjectView(o, codes) == old(ObjectView(o, codes))
      ensures Now().accts == rest[o.address := ObjectView(o, codes)]
      ensures o.address in Marked() && dirty == old(dirty) + (if old(o.armed) then {o.address} else {})
    {
      hide Past, Shelved, Logged, Accts, Words, CodeFrom, ObjectView, AllTidy;
      Focus(objects, accounts, codes, o.address);
      ghost var marked := Marked();
      MarkDirty(o);
      LoggedMore(j, marked, Marked());
    }

    lemma {:induction false} BaseApart(a: Address)
      requires Base() && a in objects
      ensures objects[a] !in (objects - {a}).Values
    {
      Apart(objects, accounts, a);
    }

    method PutBalance(o: StateObject, amount: int, ghost j: seq<JournalEntry>, ghost v: View)
      requires Base() && Owns(o) && o !in Shelf(j) && Prior(j, v)
      modifies this`dirty, o
      ensures Base() && Owns(o) && Prior(j, v) && OnlyAccount(o)
      ensures o.address in Marked() && dirty == old(dirty) + (if old(o.armed) then {o.address} else {})
      ensures ObjectView(o, codes) == old(ObjectView(o, codes)).(balance := amount)
    {
      hide Prior, Accts, Words, CodeFrom, Clean, AllTidy, Booked, Marked, Proper;
      Focus(objects, accounts, codes, o.address);
      TidyAt(objects, o.address);
      BaseApart(o.address);
      ghost var rest := Accts(objects - {o.address}, accounts - {o.address}, codes);
      o.data := o.data.(balance := amount);
      TidyJoin(objects, o.address);
      Settle(o, rest, j, v);
    }

    method PutNonce(o: StateObject, nonce: Uint64, ghost j: seq<JournalEntry>, ghost v: View)
      requires Base() && Owns(o) && o !in Shelf(j) && Prior(j, v)
      modifies this`dirty, o
      ensures Base() && Owns(o) && Prior(j, v) && OnlyAccount(o)
      ensures o.address in Marked() && dirty == old(dirty) + (if old(o.armed) then {o.address} else {})
      ensures ObjectView(o, codes) == old(ObjectView(o, codes)).(nonce := nonce)
    {
      hide Prior, Accts, Words, CodeFrom, Clean, AllTidy, Booked, Marked, Proper;
      Focus(objects, accounts, codes, o.address);
      TidyAt(objects, o.address);
      BaseApart(o.address);
      ghost var rest := Accts(objects - {o.address}, accounts - {o.address}, codes);
      o.data := o.data.(nonce := nonce);
      TidyJoin(objects, o.address);
      Settle(o, rest, j, v);
    }

    method PutWord(o: StateObject, key: Word, word: Word, ghost j: seq<JournalEntry>, ghost v: View)
      requires Base() && Owns(o) && o !in Shelf(j) && Prior(j, v)
      modifies this`dirty, o
      ensures Base() && Owns(o) && Prior(j, v) && OnlyAccount(o)
      ensures o.address in Marked() && dirty == old(dirty) + (if old(o.armed) then {o.address} else {})
      ensures ObjectView(o, codes) == old(ObjectView(o, codes)).(storage := WithWord(old(ObjectView(o, codes)).storage, key, word))
    {
      hide Prior, Accts, Words, CodeFrom, Ground, Clean, AllTidy, Booked;
      WordsPut(o.cached, o.data.storage, key, word);
      Focus(objects, accounts, codes, o.address);
      TidyAt(objects, o.address);
      CleanPut(o.cached, o.dirtyKeys, o.data.storage, key, word);
      BaseApart(o.address);
      ghost var rest := Accts(objects - {o.address}, accounts - {o.address}, codes);
      o.WriteWord(key, word);
      TidyJoin(objects, o.address);
      Settle(o, rest, j, v);
    }

    method PutCode(o: StateObject, codeHash: Digest, code: Option<Bytes>, ghost j: seq<JournalEntry>, ghost v: View)
      requires Base() && Owns(o) && o !in Shelf(j) && Prior(j, v) && CodeFrom(code, codeHash, codes) == code
      modifies this`dirty, o
      ensures Base() && Owns(o) && Prior(j, v) && OnlyAccount(o)
      ensures o.address in Marked() && dirty == old(dirty) + (if old(o.armed) then {o.address} else {})
      ensures ObjectView(o, codes) == old(ObjectView(o, codes)).(code := code, codeHash := codeHash)
    {
      hide Prior, Accts, Words, CodeFrom, Clean, AllTidy, Booked, Marked, Proper;
      Focus(objects, accounts, codes, o.address);
      TidyAt(objects, o.address);
      BaseApart(o.address);
      ghost var rest := Accts(objects - {o.address}, accounts - {o.address}, codes);
      o.WriteCode(codeHash, code);
      TidyJoin(objects, o.address);
      Settle(o, rest, j, v);
    }

    method PutSuicided(o: StateObject, suicided: bool, balance: int, ghost j: seq<JournalEntry>, ghost v: View)
      requires Base() && Owns(o) && o !in Shelf(j) && Prior(j, v)
      modifies this`dirty, o
      ensures Base() && Owns(o) && Prior(j, v) && OnlyAccount(o)
      ensures o.address in Marked() && dirty == old(dirty) + (if old(o.armed) then {o.address} else {})
      ensures ObjectView(o, codes) == old(ObjectView(o, codes)).(suicided := suicided, balance := balance)
    {
      hide Prior, Accts, Words, CodeFrom, Clean, AllTidy, Booked, Marked, Proper;
      Focus(objects, accounts, codes, o.address);
      TidyAt(objects, o.address);
      BaseApart(o.address);
      ghost var rest := Accts(objects - {o.address}, accounts - {o.address}, codes);
      o.WriteSuicided(suicided, balance);
      TidyJoin(objects, o.address);
      Settle(o, rest, j, v);
    }

    /** Record entry e for a change that led from view v to the present one. */
    method Note(e: JournalEntry, ghost v: View)
      requires Base() && Prior(journal, v) && EntrySound(e, accounts, codes)
      requires Applies(DeltaOf(e, codes), Now()) && Undo(DeltaOf(e, codes), Now()) == v
      requires e.ResetObjectChange? ==> e.obj !in Repr() && !e.obj.deleted && Tidy(e.obj)
      requires Synced() && (e.ResetObjectChange? ==> e.obj.address in Marked()) && (e.CreateObjectChange? ==> NoReset(journal, e.account))
      modifies this`journal, this`deltas, this`history
      ensures Valid() && journal == old(journal) + [e] && history == old(history) + [v]
    {
      hide DeltaOf, Undo, Applies, Accts, EntrySound, Tidy, AllTidy, Booked, InTrie, Ground;
      MatchesNext(journal, deltas, accounts, codes, e);
      ChainNext(deltas, history, v, DeltaOf(e, codes), Now());
      RevisedNext(validRevisions, nextRevisionId, taken, history, v, Now());
      ShelvedNext(journal, objects, e);
      LoggedNext(journal, Marked(), e);
      hide Matches, Chain, Revised, Shelved, Shelf, Logged;
      deltas, history := deltas + [DeltaOf(e, codes)], history + [v];
      journal := journal + [e];
    }

    /** The object of an account, loaded from the trie on first use. */
    method GetStateObject(a: Address, ghost j: seq<JournalEntry>, ghost v: View) returns (o: StateObject?)
      requires Base() && Prior(j, v)
      modifies this`objects
      ensures Base() && Prior(j, v) && Now() == old(Now()) && (o == null <==> a !in Now().accts)
      ensures o != null ==> o.address == a && Owns(o)
      ensures a in old(objects) ==> objects == old(objects)
      ensures forall x | x in objects.Values :: x in old(objects.Values) || fresh(x)
    {
      hide Prior, ObjectView, AccountView;
      if a in objects {
        return if objects[a].deleted then null else objects[a];
      }
      if a !in accounts {
        return null;
      }
      o := Load(a, j, v);
      assert a in Now().accts;
    }

    method Load(a: Address, ghost j: seq<JournalEntry>, ghost v: View) returns (o: StateObject)
      requires Base() && Prior(j, v) && a !in objects && a in accounts
      modifies this`objects
      ensures Base() && Prior(j, v) && Now() == old(Now())
      ensures o.armed && !o.touched && o.address == a && Owns(o) && fresh(o) && objects == old(objects)[a := o]
    {
      hide Past, Logged, Accts, Words, CodeFrom, Clean, AllTidy;
      o := new StateObject(a, accounts[a]);
      Loaded(objects, accounts, codes, a, o);
      CleanNone(o.data.storage);
      TidyPut(objects, a, o);
      objects := objects[a := o];
    }

    /** Each object is its own, or new. */
    twostate predicate SameObjects()
      reads this
    {
      forall x | x in Repr() :: x in old(Repr()) || fresh(x)
    }

    /** A fresh object takes the address. */
    method Enroll(a: Address) returns (o: StateObject)
      requires Valid()
      modifies this`objects, this`dirty
      ensures Base() && Prior(journal, old(Now())) && o.address == a && Owns(o) && fresh(o) && objects == old(objects)[a := o]
      ensures Now() == WithAcct(old(Now()), a, NEW_ACCT) && a in dirty && old(dirty) <= dirty
    {
      hide Past, Logged, Accts, ObjectView, Clean, AllTidy, Proper, Spent, Shelved;
      ghost var shelf := Shelf(journal);
      o := new StateObject.Fresh(a);
      assert o !in shelf;
      FreshView(o, codes);
      CleanNone(o.data.storage);
      Inserted(objects, accounts, codes, a, o);
      TidyPut(objects, a, o);
      LivePut(journal, objects, accounts, a, o);
      LoggedMore(journal, Marked(), Marked() + {a});
      ghost var marked := Marked();
      objects, dirty := objects[a := o], dirty + {a};
      assert Marked() == marked + {a};
      assert Ground() && AllTidy(objects);
    }

    /** A fresh account object takes the address; an object that was there is shelved in the journal. */
    method CreateObject(a: Address) returns (o: StateObject, prev: StateObject?)
      requires Valid()
      modifies this`objects, this`dirty, this`journal, this`deltas, this`history
      ensures Valid() && o.address == a && Owns(o) && SameObjects()
      ensures Now() == WithAcct(old(Now()), a, NEW_ACCT)
      ensures a in Marked() && old(dirty) <= dirty
      ensures prev == null <==> a !in old(Now()).accts
      ensures prev != null ==> prev != o && prev in Shelf(journal) && ObjectView(prev, codes) == old(Now()).accts[a]
    {
      hide Prior, Accts, ObjectView, Base, Shelf, InTrie;
      prev := GetStateObject(a, journal, Now());
      if prev == null {
        o := Begin(a);
      } else {
        o := Replace(a, prev);
      }
    }

    lemma {:induction false} AbsentNoReset(j: seq<JournalEntry>, v: View, a: Address)
      requires Past(j, v) && a !in v.accts
      ensures NoReset(j, a)
    {
      NoResetAbsent(j, deltas, history, v, accounts, codes, a);
    }

    lemma {:induction false} AbsentNow(a: Address)
      requires Valid() && a !in Now().accts
      ensures a !in accounts && NoReset(journal, a)
    {
      hide Past, Accts, InTrie, Logged, Shelved, NoReset;
      AbsentNoReset(journal, Now(), a);
      Absent(objects, accounts, codes, a);
    }

    /** An account has been created where none was: note that. */
    method NoteCreated(a: Address, ghost v: View, ghost marked: set<Address>)
      requires Base() && Prior(journal, v) && a !in accounts && a !in v.accts && Now() == WithAcct(v, a, NEW_ACCT) && NoReset(journal, a)
      requires InTrie(v.accts, accounts, codes, marked) && marked <= Marked() && a in Marked()
      modifies this`journal, this`deltas, this`history
      ensures Valid() && journal == old(journal) + [CreateObjectChange(a)] && Now() == old(Now()) && Shelf(journal) == old(Shelf(journal))
    {
      hide Base, Past, Accts, Undo, Applies, InTrie, Logged, NoReset, Shelved;
      RemarkAt(v, marked, a, NEW_ACCT);
      UndoCreated(v, a, NEW_ACCT);
      ShelfNext(journal, CreateObjectChange(a));
      Note(CreateObjectChange(a), v);
    }

    method Begin(a: Address) returns (o: StateObject)
      requires Valid() && a !in Now().accts
      modifies this`objects, this`dirty, this`journal, this`deltas, this`history
      ensures Valid() && o.address == a && Owns(o) && fresh(o) && Now() == WithAcct(old(Now()), a, NEW_ACCT)
      ensures a in Marked() && old(dirty) <= dirty
      ensures objects == old(objects)[a := o] && journal == old(journal) + [CreateObjectChange(a)] && SameObjects()
    {
      hide Base, Prior, Accts, InTrie, NoReset;
      ghost var v := Now();
      AbsentNow(a);
      ghost var marked := Marked();
      o := Enroll(a);
      NoteCreated(a, v, marked);
    }

    lemma {:induction false} OwnedNow(o: StateObject)
      requires Valid() && Owns(o)
      ensures o.address in Now().accts && ObjectView(o, codes) == Now().accts[o.address] && Tidy(o)
      ensures o !in Shelf(journal) && o !in (objects - {o.address}).Values
    {
      hide Past, Logged, Accts, ObjectView, InTrie, Tidy;
      Focus(objects, accounts, codes, o.address);
      TidyAt(objects, o.address);
      Apart(objects, accounts, o.address);
    }

    /** The object of an account has been replaced: note the one before. */
    method NoteReset(prev: StateObject, ghost v: View, ghost marked: set<Address>, ghost x: Acct)
      requires Base() && Prior(journal, v) && prev !in Repr() && !prev.deleted && Tidy(prev)
      requires prev.address in v.accts && ObjectView(prev, codes) == v.accts[prev.address] && Now() == WithAcct(v, prev.address, x)
      requires InTrie(v.accts, accounts, codes, marked) && marked <= Marked() && prev.address in Marked()
      modifies this`journal, this`deltas, this`history
      ensures Valid() && journal == old(journal) + [ResetObjectChange(prev)] && Now() == old(Now())
      ensures Shelf(journal) == old(Shelf(journal)) + {prev}
    {
      hide Base, Past, Accts, ObjectView, Undo, Applies, InTrie, Logged, NoReset, Tidy, Shelved;
      RemarkAt(v, marked, prev.address, x);
      UndoReset(v, prev.address, x);
      ShelfNext(journal, ResetObjectChange(prev));
      Note(ResetObjectChange(prev), v);
    }

    method Replace(a: Address, prev: StateObject) returns (o: StateObject)
      requires Valid() && Owns(prev) && prev.address == a
      modifies this`objects, this`dirty, this`journal, this`deltas, this`history
      ensures Valid() && o.address == a && Owns(o) && fresh(o) && a in old(Now()).accts
      ensures Now() == WithAcct(old(Now()), a, NEW_ACCT)
      ensures a in Marked() && old(dirty) <= dirty
      ensures prev in Shelf(journal) && ObjectView(prev, codes) == old(Now()).accts[a]
      ensures objects == old(objects)[a := o] && journal == old(journal) + [ResetObjectChange(prev)] && SameObjects()
    {
      hide Base, Prior, Accts, ObjectView, AccountView, InTrie, OnlyAt, Tidy;
      ghost var v := Now();
      OwnedNow(prev);
      ghost var marked := Marked();
      o := Enroll(a);
      Ousted(old(objects), a, o, prev);
      NoteReset(prev, v, marked, NEW_ACCT);
    }

    method GetOrNewStateObject(a: Address) returns (o: StateObject)
      requires Valid()
      modifies this`objects, this`dirty, this`journal, this`deltas, this`history
      ensures Valid() && o.address == a && Owns(o) && SameObjects() && Now() == Ensured(old(Now()), a)
      ensures old(dirty) <= dirty && (a !in old(Now()).accts ==> a in Marked()) && (a in old(Now()).accts ==> journal == old(journal))
    {
      hide Past, Accts, Base, Shelved, InTrie;
      var found := GetStateObject(a, journal, Now());
      if found != null {
        return found;
      }
      var prev;
      o, prev := CreateObject(a);
    }

    method SetBalance(a: Address, amount: int)
      requires Valid()
      modifies this, Repr()
      ensures Valid() && SameObjects() && Kept() && a in Marked()
      ensures var v := Ensured(old(Now()), a); Now() == WithAcct(v, a, v.accts[a].(balance := amount))
    {
      hide Past, Accts, Base, Shelved;
      var o := GetOrNewStateObject(a);
      SetBalanceOf(o, amount);
    }

    /** The trie, the code and the revisions stay. */
    twostate predicate Kept()
      reads this
    {
      && accounts == old(accounts) && codes == old(codes) && thash == old(thash)
      && validRevisions == old(validRevisions) && nextRevisionId == old(nextRevisionId) && taken == old(taken)
      && lost == old(lost) && old(dirty) <= dirty
    }

    /** A change at a marked account leaves all the others as the trie shows them. */
    lemma {:induction false} Remark(v: View, marked: set<Address>, o: StateObject)
      requires InTrie(v.accts, accounts, codes, marked) && marked <= Marked() && o.address in Marked()
      requires Now() == WithAcct(v, o.address, ObjectView(o, codes))
      ensures Synced()
    {
      hide Accts, ObjectView, InTrie;
      RemarkAt(v, marked, o.address, ObjectView(o, codes));
    }

    lemma {:induction false} RemarkAt(v: View, marked: set<Address>, a: Address, x: Acct)
      requires InTrie(v.accts, accounts, codes, marked) && marked <= Marked() && a in Marked() && Now() == WithAcct(v, a, x)
      ensures Synced()
    {
      hide Accts;
      WithAcctOnlyAt(v, a, x);
      InTrieAt(v.accts, Now().accts, accounts, codes, marked, Marked(), a);
    }

    method SetBalanceOf(o: StateObject, amount: int)
      requires Valid() && Owns(o)
      modifies this`dirty, this`journal, this`deltas, this`history, o
      ensures Valid() && Owns(o) && SameObjects() && o.address in old(Now()).accts
      ensures o.address in Marked() && dirty == old(dirty) + (if old(o.armed) then {o.address} else {})
      ensures Now() == WithAcct(old(Now()), o.address, old(Now()).accts[o.address].(balance := amount))
    {
      hide Past, Accts, Base, Undo, Applies, InTrie, Logged, NoReset;
      ghost var v := Now();
      var e := BalanceChange(o.address, o.data.balance);
      Focus(objects, accounts, codes, o.address);
      ghost var marked := Marked();
      PutBalance(o, amount, journal, v);
      Remark(v, marked, o);
      UndoBalance(v, o.address, amount);
      ShelfNext(journal, e);
      Note(e, v);
    }

    /** An empty account that receives nothing is marked so that it can be cleared. */
    method Touch(o: StateObject)
      requires Valid() && Owns(o)
      modifies this`dirty, this`journal, this`deltas, this`history, o`armed, o`touched
      ensures Valid() && Owns(o) && SameObjects() && Now() == old(Now()) && o.address in Marked() && old(dirty) <= dirty
      ensures journal == old(journal) + [TouchChange(o.address, old(o.touched), !old(o.armed))] && !o.armed
    {
      hide Past, Accts, Base, ObjectView, InTrie, Logged, NoReset;
      ghost var v := Now();
      var e := TouchChange(o.address, o.touched, !o.armed);
      Focus(objects, accounts, codes, o.address);
      ghost var marked := Marked();
      TouchObject(o, v);
      InTrieMore(v.accts, accounts, codes, marked, Marked());
      ShelfNext(journal, e);
      Note(e, v);
    }

    method Mark(o: StateObject, ghost v: View)
      requires Base() && Prior(journal, v) && Owns(o) && v == Now()
      modifies this`dirty, o`armed
      ensures Base() && Prior(journal, v) && v == Now() && o.address in Marked() && old(dirty) <= dirty && !o.armed
    {
      hide Past, Logged, Accts, AllTidy;
      ghost var marked := Marked();
      MarkDirty(o);
      LoggedMore(journal, marked, Marked());
    }

    method TouchObject(o: StateObject, ghost v: View)
      requires Base() && Prior(journal, v) && Owns(o) && v == Now()
      modifies this`dirty, o`armed, o`touched
      ensures Base() && Prior(journal, v) && Owns(o) && v == Now() && o.address in Marked() && old(dirty) <= dirty && !o.armed
    {
      hide Base, Past, Logged, Accts;
      Mark(o, v);
      o.touched := true;
    }

    /** An account that is empty is touched, so that it is looked at in the end. */
    method TouchEmpty(o: StateObject)
      requires Valid() && Owns(o)
      modifies this`dirty, this`journal, this`deltas, this`history, o`armed, o`touched
      ensures Valid() && SameObjects() && Now() == old(Now()) && o.address in Now().accts && old(dirty) <= dirty
      ensures IsEmpty(Now().accts[o.address]) ==> o.address in Marked()
    {
      hide Prior, Accts, Base;
      Focus(objects, accounts, codes, o.address);
      if o.Empty() {
        Touch(o);
      }
    }

    lemma {:induction false} BalanceNow(o: StateObject)
      requires Valid() && Owns(o)
      ensures o.address in Now().accts && Now().accts[o.address].balance == o.data.balance
    {
      hide Prior, Accts, Base;
      Focus(objects, accounts, codes, o.address);
    }

    method AddBalance(a: Address, amount: int)
      requires Valid()
      modifies this, Repr()
      ensures Valid() && SameObjects() && Kept()
      ensures amount != 0 || IsEmpty(Ensured(old(Now()), a).accts[a]) ==> a in Marked()
      ensures var v := Ensured(old(Now()), a); Now() == WithAcct(v, a, v.accts[a].(balance := v.accts[a].balance + amount))
    {
      hide Valid, Accts, Ensured, ObjectView;
      var o := GetOrNewStateObject(a);
      ghost var v := Now();
      BalanceNow(o);
      if amount == 0 {
        assert v == WithAcct(v, a, v.accts[a]);
        TouchEmpty(o);
        return;
      }
      SetBalanceOf(o, o.data.balance + amount);
    }

    method SubBalance(a: Address, amount: int)
      requires Valid()
      modifies this, Repr()
      ensures Valid() && SameObjects() && Kept() && (amount != 0 ==> a in Marked())
      ensures var v := Ensured(old(Now()), a); Now() == WithAcct(v, a, v.accts[a].(balance := v.accts[a].balance - amount))
    {
      hide Valid, Accts, Ensured, ObjectView;
      var o := GetOrNewStateObject(a);
      ghost var v := Now();
      BalanceNow(o);
      if amount == 0 {
        assert v == WithAcct(v, a, v.accts[a]);
        return;
      }
      SetBalanceOf(o, o.data.balance - amount);
    }

    method SetNonce(a: Address, nonce: Uint64)
      requires Valid()
      modifies this, Repr()
      ensures Valid() && SameObjects() && Kept() && a in Marked()
      ensures a in old(Now()).accts ==> old(journal) < journal && Touches(journal[|old(journal)|..]) == {}
      ensures var v := Ensured(old(Now()), a); Now() == WithAcct(v, a, v.accts[a].(nonce := nonce))
    {
      hide Prior, Accts, Base;
      var o := GetOrNewStateObject(a);
      SetNonceOf(o, nonce);
    }

    method SetNonceOf(o: StateObject, nonce: Uint64)
      requires Valid() && Owns(o)
      modifies this`dirty, this`journal, this`deltas, this`history, o
      ensures Valid() && Owns(o) && SameObjects() && o.address in old(Now()).accts && o.address in Marked() && old(dirty) <= dirty
      ensures old(journal) < journal && Touches(journal[|old(journal)|..]) == {}
      ensures Now() == WithAcct(old(Now()), o.address, old(Now()).accts[o.address].(nonce := nonce))
    {
      hide Past, Accts, Base, Undo, Applies, InTrie, Logged, NoReset;
      ghost var v := Now();
      var e := NonceChange(o.address, o.data.nonce);
      Focus(objects, accounts, codes, o.address);
      ghost var marked := Marked();
      PutNonce(o, nonce, journal, v);
      Remark(v, marked, o);
      UndoNonce(v, o.address, nonce);
      ShelfNext(journal, e);
      Note(e, v);
    }

    /** A storage word, cached when it is read from the storage trie and is not zero. */
    method ReadWord(o: StateObject, key: Word) returns (word: Word)
      requires Valid() && Owns(o)
      modifies o`cached
      ensures Valid() && Owns(o) && Now() == old(Now()) && o.address in Now().accts
      ensures word == WordAt(Now().accts[o.address].storage, key)
    {
      hide Past, Accts, Words, CodeFrom;
      Focus(objects, accounts, codes, o.address);
      WordsAt(o.cached, o.data.storage, key);
      if key in o.cached {
        return o.cached[key];
      }
      word := WordAt(o.data.storage, key);
      if word != 0 {
        WordsLoad(o.cached, o.data.storage, key);
        Apart(objects, accounts, o.address);
        ghost var rest := Accts(objects - {o.address}, accounts - {o.address}, codes);
        o.cached := o.cached[key := word];
        Focus(objects, accounts, codes, o.address);
      }
    }

    method GetState(a: Address, key: Word) returns (word: Word)
      requires Valid()
      modifies this`objects, Repr()
      ensures Valid() && Now() == old(Now()) && SameObjects()
      ensures word == if a in Now().accts then WordAt(Now().accts[a].storage, key) else 0
    {
      hide Prior, Accts, Base;
      var o := GetStateObject(a, journal, Now());
      if o == null {
        return 0;
      }
      word := ReadWord(o, key);
    }

    method SetState(a: Address, key: Word, word: Word)
      requires Valid()
      modifies this, Repr()
      ensures Valid() && SameObjects() && Kept() && a in Marked()
      ensures var v := Ensured(old(Now()), a);
              Now() == WithAcct(v, a, v.accts[a].(storage := WithWord(v.accts[a].storage, key, word)))
    {
      hide Prior, Accts, Base;
      var o := GetOrNewStateObject(a);
      SetStateOf(o, key, word);
    }

    method SetStateOf(o: StateObject, key: Word, word: Word)
      requires Valid() && Owns(o)
      modifies this`dirty, this`journal, this`deltas, this`history, o
      ensures Valid() && Owns(o) && SameObjects() && o.address in old(Now()).accts && o.address in Marked() && old(dirty) <= dirty
      ensures var x := old(Now()).accts[o.address];
              Now() == WithAcct(old(Now()), o.address, x.(storage := WithWord(x.storage, key, word)))
    {
      hide Valid, Accts;
      var prev := ReadWord(o, key);
      StoreWord(o, key, prev, word);
    }

    method StoreWord(o: StateObject, key: Word, prev: Word, word: Word)
      requires Valid() && Owns(o) && o.address in Now().accts && prev == WordAt(Now().accts[o.address].storage, key)
      modifies this`dirty, this`journal, this`deltas, this`history, o
      ensures Valid() && Owns(o) && SameObjects() && o.address in old(Now()).accts && o.address in Marked() && old(dirty) <= dirty
      ensures var x := old(Now()).accts[o.address];
              Now() == WithAcct(old(Now()), o.address, x.(storage := WithWord(x.storage, key, word)))
    {
      hide Past, Accts, Base, Undo, Applies, InTrie, Logged, NoReset;
      ghost var v := Now();
      var e := StorageChange(o.address, key, prev);
      Focus(objects, accounts, codes, o.address);
      ghost var marked := Marked();
      PutWord(o, key, word, journal, v);
      Remark(v, marked, o);
      UndoWord(v, o.address, key, word);
      ShelfNext(journal, e);
      Note(e, v);
    }

    /** The code of an account, kept when it is read from the database. */
    method ReadCode(o: StateObject) returns (code: Option<Bytes>)
      requires Valid() && Owns(o)
      modifies o`code
      ensures Valid() && Owns(o) && Now() == old(Now()) && o.address in Now().accts
      ensures code == Now().accts[o.address].code == CodeFrom(code, o.data.codeHash, codes)
    {
      hide Past, Accts, Words, AllTidy;
      Focus(objects, accounts, codes, o.address);
      if o.code.Some? {
        return o.code;
      }
      if o.data.codeHash == EMPTY_CODE {
        return None;
      }
      code := if o.data.codeHash in codes then Some(codes[o.data.codeHash]) else None;
      Apart(objects, accounts, o.address);
      ghost var rest := Accts(objects - {o.address}, accounts - {o.address}, codes);
      o.code := code;
      Focus(objects, accounts, codes, o.address);
    }

    method SetCode(a: Address, code: Bytes)
      requires Valid()
      modifies this, Repr()
      ensures Valid() && SameObjects() && Kept() && a in Marked()
      ensures var v := Ensured(old(Now()), a);
              Now() == WithAcct(v, a, v.accts[a].(code := Some(code), codeHash := Keccak(BRaw(code))))
    {
      hide Prior, Accts, Base;
      var o := GetOrNewStateObject(a);
      SetCodeOf(o, code);
    }

    method SetCodeOf(o: StateObject, code: Bytes)
      requires Valid() && Owns(o)
      modifies this`dirty, this`journal, this`deltas, this`history, o
      ensures Valid() && Owns(o) && SameObjects() && o.address in old(Now()).accts && o.address in Marked() && old(dirty) <= dirty
      ensures var x := old(Now()).accts[o.address];
              Now() == WithAcct(old(Now()), o.address, x.(code := Some(code), codeHash := Keccak(BRaw(code))))
    {
      hide Past, Accts, Base, Undo, Applies, InTrie, Logged, NoReset;
      var prev := ReadCode(o);
      ghost var v := Now();
      var e := CodeChange(o.address, prev, o.data.codeHash);
      Focus(objects, accounts, codes, o.address);
      ghost var marked := Marked();
      PutCode(o, Keccak(BRaw(code)), Some(code), journal, v);
      Remark(v, marked, o);
      UndoCode(v, o.address, Some(code), Keccak(BRaw(code)));
      ShelfNext(journal, e);
      Note(e, v);
    }

    method Suicide(a: Address) returns (ok: bool)
      requires Valid()
      modifies this, Repr()
      ensures Valid() && SameObjects() && Kept() && ok == (a in old(Now()).accts) && (ok ==> a in Marked())
      ensures Now() == if ok then WithAcct(old(Now()), a, old(Now()).accts[a].(suicided := true, balance := 0)) else old(Now())
    {
      hide Prior, Accts, Base;
      var o := GetStateObject(a, journal, Now());
      if o == null {
        return false;
      }
      SuicideOf(o);
      ok := true;
    }

    method SuicideOf(o: StateObject)
      requires Valid() && Owns(o)
      modifies this`dirty, this`journal, this`deltas, this`history, o
      ensures Valid() && Owns(o) && SameObjects() && o.address in old(Now()).accts && o.address in Marked() && old(dirty) <= dirty
      ensures Now() == WithAcct(old(Now()), o.address, old(Now()).accts[o.address].(suicided := true, balance := 0))
    {
      hide Past, Accts, Base, Undo, Applies, InTrie, Logged, NoReset;
      ghost var v := Now();
      var e := SuicideChange(o.address, o.suicided, o.data.balance);
      Focus(objects, accounts, codes, o.address);
      ghost var marked := Marked();
      PutSuicided(o, true, 0, journal, v);
      Remark(v, marked, o);
      UndoSuicide(v, o.address);
      ShelfNext(journal, e);
      Note(e, v);
    }

    method AddRefund(value: Uint64)
      requires Valid()
      modifies this
      ensures Valid() && SameObjects() && Kept()
      ensures Now() == old(Now()).(refund := (old(refund) + value) % 0x1_0000_0000_0000_0000)
    {
      hide Prior, Accts, Base;
      ghost var v := Now();
      var e := RefundChange(refund);
      refund := (refund + value) % 0x1_0000_0000_0000_0000;
      assert Undo(DeltaOf(e, codes), Now()) == v;
      ShelfNext(journal, e);
      Note(e, v);
    }

    method PutLog(log: Log, ghost v: View)
      requires Base() && Prior(journal, v) && Synced()
      modifies this`logs, this`logSize
      ensures Base() && Prior(journal, v) && Synced() && Now() == WithLog(old(Now()), thash, log)
    {
      hide Past, Accts, AllTidy, InTrie, Booked, Logged;
      logs := logs[thash := (if thash in logs then logs[thash] else []) + [log]];
      logSize := logSize + 1;
    }

    lemma {:induction false} BaseLogs(tx: Digest)
      requires Base()
      ensures tx in logs ==> logs[tx] != []
    {
    }

    method AddLog(data: Bytes)
      requires Valid()
      modifies this
      ensures Valid() && SameObjects() && Kept()
      ensures Now() == WithLog(old(Now()), thash, Log(data, thash, old(logSize)))
    {
      hide Prior, Accts, Undo, Applies, Base, Synced, WithLog;
      ghost var v := Now();
      var e := AddLogChange(thash);
      var log := Log(data, thash, logSize);
      BaseLogs(thash);
      UndoLog(v, thash, log);
      PutLog(log, v);
      ShelfNext(journal, e);
      Note(e, v);
    }

    method AddPreimage(hash: Digest, preimage: Bytes)
      requires Valid()
      modifies this
      ensures Valid() && SameObjects() && Kept()
      ensures Now() == if hash in old(preimages) then old(Now()) else old(Now()).(preimages := old(preimages)[hash := preimage])
    {
      hide Prior, Accts, Base, Undo, Applies;
      if hash !in preimages {
        ghost var v := Now();
        var e := AddPreimageChange(hash);
        UndoPreimage(v, hash, preimage);
        preimages := preimages[hash := preimage];
        ShelfNext(journal, e);
        Note(e, v);
      }
    }

    /** Step back one entry in the ghost history, before the entry itself is undone. */
    ghost method Pop(j: seq<JournalEntry>)
      requires Prior(j, Now()) && j != [] && Within(validRevisions, |j| - 1)
      modifies this`deltas, this`history
      ensures var n := |j| - 1;
              && |old(history)| == |j| && Prior(j[..n], old(history)[n])
              && deltas == old(deltas)[..n] && history == old(history)[..n]
              && Applies(DeltaOf(j[n], codes), Now()) && Undo(DeltaOf(j[n], codes), Now()) == old(history)[n]
              && EntrySound(j[n], accounts, codes)
              && (j[n].ResetObjectChange? ==> j[n].obj !in Shelf(j[..n]) && j[n].obj !in objects.Values && !j[n].obj.deleted && Tidy(j[n].obj))
              && (j[n].ResetObjectChange? ==> j[n].obj.address in Marked())
              && (j[n].CreateObjectChange? ==> NoReset(j[..n], j[n].account))
    {
      hide DeltaOf, Undo, Applies, Accts, EntrySound, Shelf, Tidy;
      var n := |j| - 1;
      MatchesPop(j, deltas, accounts, codes);
      ShelvedPop(j, objects);
      LoggedPop(j, Marked());
      ChainUndo(deltas, history, Now());
      RevisedPop(validRevisions, nextRevisionId, taken, history, Now());
      assert deltas[n] == DeltaOf(j[n], codes) && EntrySound(j[n], accounts, codes);
      hide Matches, Chain, Revised, Logged, NoReset;
      deltas, history := deltas[..n], history[..n];
    }

    method RevertBalance(a: Address, balance: int, ghost j: seq<JournalEntry>, ghost w: View)
      requires Base() && Prior(j, w) && Synced() && a in Now().accts && Undo(BalanceSet(a, balance), Now()) == w
      modifies this`objects, this`dirty, objects.Values
      ensures Base() && Prior(j, w) && Now() == w && Synced()
      ensures forall x | x in objects.Values :: x in old(objects.Values) || fresh(x)
    {
      hide Past, Accts, Base, ObjectView, InTrie;
      var o := GetStateObject(a, j, w);
      Focus(objects, accounts, codes, a);
      ghost var v, marked := Now(), Marked();
      PutBalance(o, balance, j, w);
      Remark(v, marked, o);
    }

    method RevertNonce(a: Address, nonce: Uint64, ghost j: seq<JournalEntry>, ghost w: View)
      requires Base() && Prior(j, w) && Synced() && a in Now().accts && Undo(NonceSet(a, nonce), Now()) == w
      modifies this`objects, this`dirty, objects.Values
      ensures Base() && Prior(j, w) && Now() == w && Synced()
      ensures forall x | x in objects.Values :: x in old(objects.Values) || fresh(x)
    {
      hide Past, Accts, Base, ObjectView, InTrie;
      var o := GetStateObject(a, j, w);
      Focus(objects, accounts, codes, a);
      ghost var v, marked := Now(), Marked();
      PutNonce(o, nonce, j, w);
      Remark(v, marked, o);
    }

    method RevertWord(a: Address, key: Word, word: Word, ghost j: seq<JournalEntry>, ghost w: View)
      requires Base() && Prior(j, w) && Synced() && a in Now().accts && Undo(WordSet(a, key, word), Now()) == w
      modifies this`objects, this`dirty, objects.Values
      ensures Base() && Prior(j, w) && Now() == w && Synced()
      ensures forall x | x in objects.Values :: x in old(objects.Values) || fresh(x)
    {
      hide Past, Accts, Base, ObjectView, InTrie;
      var o := GetStateObject(a, j, w);
      Focus(objects, accounts, codes, a);
      ghost var v, marked := Now(), Marked();
      PutWord(o, key, word, j, w);
      Remark(v, marked, o);
    }

    method RevertSuicide(a: Address, suicided: bool, balance: int, ghost j: seq<JournalEntry>, ghost w: View)
      requires Base() && Prior(j, w) && Synced() && a in Now().accts && Undo(Suicided(a, suicided, balance), Now()) == w
      modifies this`objects, this`dirty, objects.Values
      ensures Base() && Prior(j, w) && Now() == w && Synced()
      ensures forall x | x in objects.Values :: x in old(objects.Values) || fresh(x)
    {
      hide Past, Accts, Base, ObjectView, InTrie;
      var o := GetStateObject(a, j, w);
      Focus(objects, accounts, codes, a);
      ghost var v, marked := Now(), Marked();
      PutSuicided(o, suicided, balance, j, w);
      Remark(v, marked, o);
    }

    method RevertCode(a: Address, code: Option<Bytes>, codeHash: Digest, ghost j: seq<JournalEntry>, ghost w: View)
      requires Base() && Prior(j, w) && Synced() && a in Now().accts && Undo(CodeSet(a, code, codeHash), Now()) == w
      requires CodeFrom(code, codeHash, codes) == code
      modifies this`objects, this`dirty, objects.Values
      ensures Base() && Prior(j, w) && Now() == w && Synced()
      ensures forall x | x in objects.Values :: x in old(objects.Values) || fresh(x)
    {
      hide Past, Accts, Base, ObjectView, CodeFrom, InTrie;
      var o := GetStateObject(a, j, w);
      Focus(objects, accounts, codes, a);
      ghost var v, marked := Now(), Marked();
      PutCode(o, codeHash, code, j, w);
      Remark(v, marked, o);
    }

    method RevertCreate(a: Address, ghost j: seq<JournalEntry>, ghost w: View)
      requires Base() && Prior(j, w) && Synced() && NoReset(j, a) && a in Now().accts && a !in accounts && Undo(Created(a), Now()) == w
      modifies this`objects, this`dirty
      ensures Base() && Prior(j, w) && Now() == w && Synced()
      ensures forall x | x in objects.Values :: x in old(objects.Values)
    {
      hide Past, InTrie, Logged, NoReset, Accts, AllTidy;
      Dropped(objects, accounts, codes, a);
      TidyDrop(objects, a);
      ghost var accts, marked := Now().accts, Marked();
      objects := objects - {a};
      dirty := dirty - {a};
      InTrieGone(accts, accounts, codes, marked, Marked(), a);
      LoggedDrop(j, marked, Marked(), a);
    }

    method RevertReset(o: StateObject, ghost j: seq<JournalEntry>, ghost w: View)
      requires Base() && Prior(j, w) && Synced() && o.address in Marked() && o !in Shelf(j) && !o.deleted && Tidy(o)
      requires o.address in Now().accts && Undo(Reset(o.address, ObjectView(o, codes)), Now()) == w
      modifies this`objects
      ensures Base() && Prior(j, w) && Now() == w && Synced()
      ensures forall x | x in objects.Values :: x in old(objects.Values) || x == o
    {
      hide Past, InTrie, Logged, OnlyAt, Accts, ObjectView, AllTidy;
      Inserted(objects, accounts, codes, o.address, o);
      TidyPut(objects, o.address, o);
      ghost var v := Now();
      objects := objects[o.address := o];
      WithAcctOnlyAt(v, o.address, ObjectView(o, codes));
      InTrieAt(v.accts, Now().accts, accounts, codes, Marked(), Marked(), o.address);
    }

    /** When the touch that marked an account first is undone, the mark is gone, though the object has reported itself. */
    twostate predicate MarkGone(e: JournalEntry)
      reads this`objects, this`dirty, objects.Values`armed, objects.Values`deleted
    {
      Unmarks(e) && e.account in old(objects) ==>
        && objects == old(objects) && e.account !in dirty
        && objects[e.account].armed == old(objects[e.account].armed) && objects[e.account].deleted == old(objects[e.account].deleted)
    }

    method RevertTouch(a: Address, prev: bool, prevDirty: bool, ghost j: seq<JournalEntry>, ghost w: View)
      requires Base() && Prior(j, w) && Synced() && a in Now().accts && Now() == w
      modifies this`objects, this`dirty, this`lost, objects.Values
      ensures Base() && Prior(j, w) && Now() == w && Synced() && lost <= old(lost) + Touches([TouchChange(a, prev, prevDirty)])
      ensures MarkGone(TouchChange(a, prev, prevDirty))
      ensures forall x | x in objects.Values :: x in old(objects.Values) || fresh(x)
    {
      hide Past, Accts, ObjectView, Base, Shelved, InTrie, Touches;
      TouchesOne(TouchChange(a, prev, prevDirty));
      if !prev && a != RIPEMD {
        var o := GetStateObject(a, j, w);
        Untouch(o, prev, prevDirty, j, w);
      }
    }

    method Unmark(o: StateObject, ghost j: seq<JournalEntry>, ghost w: View)
      requires Base() && Prior(j, w) && Synced() && Owns(o) && Now() == w
      modifies this`dirty, this`lost
      ensures Base() && Prior(j, w) && Now() == w && Synced() && dirty == old(dirty) - {o.address} && lost == old(lost) + {o.address}
    {
      hide Past, InTrie, Logged, Accts, ObjectView, AllTidy;
      ghost var marked := Marked();
      dirty := dirty - {o.address};
      lost := lost + {o.address};
      LoggedMore(j, marked, Marked());
      InTrieMore(Now().accts, accounts, codes, marked, Marked());
    }

    method Untouch(o: StateObject, prev: bool, prevDirty: bool, ghost j: seq<JournalEntry>, ghost w: View)
      requires Base() && Prior(j, w) && Synced() && Owns(o) && Now() == w
      modifies this`dirty, this`lost, o`touched
      ensures Base() && Prior(j, w) && Now() == w && Synced() && lost <= old(lost) + if prevDirty then {} else {o.address}
      ensures !prevDirty ==> o.address !in dirty
    {
      hide Base, Past, InTrie, Logged, Accts, ObjectView;
      if !prevDirty {
        Unmark(o, j, w);
      }
      o.touched := prev;
    }

    method RevertLog(tx: Digest, ghost j: seq<JournalEntry>, ghost w: View)
      requires Base() && Prior(j, w) && Synced() && Applies(LogAdded(tx), Now()) && Undo(LogAdded(tx), Now()) == w
      modifies this`logs, this`logSize
      ensures Base() && Prior(j, w) && Now() == w && Synced()
    {
      hide Past, Logged, InTrie, Booked, Accts, AllTidy;
      var lgs := logs[tx];
      logs := if |lgs| == 1 then logs - {tx} else logs[tx := lgs[..|lgs| - 1]];
      logSize := logSize - 1;
    }

    method UndoEntry(e: JournalEntry, ghost j: seq<JournalEntry>, ghost w: View)
      requires Synced() && (e.ResetObjectChange? ==> e.obj.address in Marked()) && (e.CreateObjectChange? ==> NoReset(j, e.account))
      requires Base() && Prior(j, w) && EntrySound(e, accounts, codes)
      requires Applies(DeltaOf(e, codes), Now()) && Undo(DeltaOf(e, codes), Now()) == w
      requires e.ResetObjectChange? ==> e.obj !in Shelf(j) && e.obj !in objects.Values && !e.obj.deleted && Tidy(e.obj)
      modifies this`objects, this`dirty, this`lost, this`refund, this`logs, this`logSize, this`preimages, objects.Values
      ensures Base() && Prior(j, w) && Now() == w && Synced() && lost <= old(lost) + Touches([e])
      ensures MarkGone(e)
      ensures forall x | x in objects.Values :: x in old(objects.Values) || fresh(x) || (e.ResetObjectChange? && x == e.obj)
    {
      hide Past, InTrie, Logged, NoReset, Booked, Accts, ObjectView, AllTidy;
      TouchesOne(e);
      hide Touches;
      match e
      case CreateObjectChange(a) => RevertCreate(a, j, w);
      case ResetObjectChange(o) => RevertReset(o, j, w);
      case SuicideChange(a, suicided, balance) => RevertSuicide(a, suicided, balance, j, w);
      case BalanceChange(a, balance) => RevertBalance(a, balance, j, w);
      case NonceChange(a, nonce) => RevertNonce(a, nonce, j, w);
      case StorageChange(a, key, word) => RevertWord(a, key, word, j, w);
      case CodeChange(a, code, hash) => RevertCode(a, code, hash, j, w);
      case RefundChange(prev) => refund := prev;
      case AddLogChange(tx) => RevertLog(tx, j, w);
      case AddPreimageChange(h) => preimages := preimages - {h};
      case TouchChange(a, prev, prevDirty) => RevertTouch(a, prev, prevDirty, j, w);
    }

    method Snapshot() returns (id: nat)
      requires Valid()
      modifies this`validRevisions, this`nextRevisionId, this`taken
      ensures Valid() && id == old(nextRevisionId) && nextRevisionId == id + 1 && Now() == old(Now())
      ensures validRevisions == old(validRevisions) + [Revision(id, |journal|)] && taken == old(taken)[id := Now()]
    {
      hide Matches, Chain, Revised, Accts, AllTidy;
      id := nextRevisionId;
      RevisedPush(validRevisions, nextRevisionId, taken, history, Now());
      assert |history| == |journal| by { HistoryLength(journal); }
      taken := taken[id := Now()];
      nextRevisionId := nextRevisionId + 1;
      validRevisions := validRevisions + [Revision(id, |journal|)];
    }

    lemma {:induction false} HistoryLength(j: seq<JournalEntry>)
      requires Prior(j, Now())
      ensures |history| == |deltas| == |j|
    {
    }

    method StepBack(n: nat)
      requires n < |journal| && Base() && Synced() && Prior(journal[..n + 1], Now()) && Within(validRevisions, n)
      modifies this`objects, this`dirty, this`lost, this`refund, this`logs, this`logSize, this`preimages, this`deltas, this`history, objects.Values
      ensures Synced() && lost <= old(lost) + Touches([journal[n]])
      ensures Base() && Prior(journal[..n], Now()) && |old(history)| == n + 1
      ensures Now() == old(history)[n] && history == old(history)[..n]
      ensures MarkGone(journal[n])
      ensures forall x | x in objects.Values :: x in old(objects.Values) || fresh(x) || x in Shelf(journal)
    {
      hide Past, InTrie, Logged, NoReset, Touches, Accts, ObjectView, Shelved, DeltaOf, EntrySound;
      var e := journal[n];
      ghost var j := journal[..n + 1];
      assert j[n] == e && j[..n] == journal[..n];
      Pop(j);
      UndoEntry(e, journal[..n], Undo(DeltaOf(e, codes), Now()));
      assert e.ResetObjectChange? ==> e.obj in Shelf(journal);
    }

    /** Undo the journal down to the revision. An id that is not valid, or no longer, is refused. */
    method RevertToSnapshot(id: nat) returns (ok: bool)
      requires Valid()
      modifies this, Repr()
      ensures ok <==> exists i :: 0 <= i < |old(validRevisions)| && old(validRevisions)[i].id == id
      ensures !ok ==> unchanged(this)
      ensures Valid() && SameObjects() && taken == old(taken) && nextRevisionId == old(nextRevisionId)
      ensures accounts == old(accounts) && codes == old(codes) && thash == old(thash)
      ensures ok ==> id in taken && Now() == taken[id]
      ensures ok ==> forall i :: 0 <= i < |old(validRevisions)| && old(validRevisions)[i].id == id ==>
                old(validRevisions)[i].journalIndex <= |old(journal)| && lost <= old(lost) + Touches(old(journal)[old(validRevisions)[i].journalIndex..])
      ensures ok ==> validRevisions <= old(validRevisions)
      ensures ok ==> forall i :: 0 <= i < |old(validRevisions)| ==> (i < |validRevisions| <==> old(validRevisions)[i].id < id)
    {
      hide Valid, Now;
      ValidAscending();
      var idx := Search(validRevisions, id);
      if idx == |validRevisions| || validRevisions[idx].id != id {
        return false;
      }
      ok := true;
      var snapshot := validRevisions[idx].journalIndex;
      Cut(idx);
      Unwind(snapshot);
    }

    lemma {:induction false} ValidAscending()
      requires Valid()
      ensures Ascending(validRevisions)
    {
      RevisedAscending(validRevisions, nextRevisionId, taken, history, Now());
    }

    lemma {:induction false} PastRevised(j: seq<JournalEntry>, v: View)
      requires Past(j, v)
      ensures Revised(validRevisions, nextRevisionId, taken, history, v) && |history| == |j|
    {
    }

    /** Drop revision idx and those after it. */
    method Cut(idx: nat)
      requires Valid() && idx < |validRevisions|
      modifies this`validRevisions
      ensures Valid() && validRevisions == old(validRevisions)[..idx]
      ensures var r := old(validRevisions)[idx];
              && r.journalIndex <= |journal| == |history| && Within(validRevisions, r.journalIndex)
              && r.id in taken && taken[r.id] == At(history, Now(), r.journalIndex)
    {
      hide Matches, Chain, Revised, Accts, AllTidy;
      PastRevised(journal, Now());
      RevisedCut(validRevisions, nextRevisionId, taken, history, Now(), idx);
      validRevisions := validRevisions[..idx];
    }

    method Unwind(snapshot: nat)
      requires Valid() && snapshot <= |journal| == |history| && Within(validRevisions, snapshot)
      modifies this`objects, this`dirty, this`lost, this`refund, this`logs, this`logSize, this`preimages,
               this`deltas, this`history, this`journal, Repr()
      ensures lost <= old(lost) + Touches(old(journal)[snapshot..])
      ensures Valid() && SameObjects() && Now() == old(At(history, Now(), snapshot))
    {
      hide Base, Past, InTrie, Logged, Touches, Accts, ObjectView, Shelved;
      var i := |journal|;
      assert journal[..i] == journal;
      while i > snapshot
        invariant snapshot <= i <= |journal| && journal == old(journal)
        invariant Base() && Prior(journal[..i], Now()) && Synced() && lost <= old(lost) + Touches(old(journal)[i..])
        invariant history == old(history)[..i] && Now() == old(At(history, Now(), i))
        invariant forall x | x in objects.Values :: x in old(Repr()) || fresh(x)
      {
        i := i - 1;
        StepBack(i);
        assert old(journal)[i..] == [old(journal)[i]] + old(journal)[i + 1..];
        TouchesMore(old(journal)[i], old(journal)[i + 1..]);
      }
      assert Shelf(journal[..snapshot]) <= Shelf(journal);
      journal := journal[..snapshot];
    }

    /** What a revert to a snapshot taken just before the last change does. */
    method UndoLast()
      requires Valid() && journal != [] && validRevisions == []
      modifies this`objects, this`dirty, this`lost, this`refund, this`logs, this`logSize, this`preimages,
               this`deltas, this`history, this`journal, Repr()
      ensures Valid() && SameObjects() && MarkGone(old(journal)[|old(journal)| - 1])
    {
      hide Past, InTrie, Logged, Accts, ObjectView, Shelved, AllTidy;
      var n := |journal| - 1;
      assert journal[..n + 1] == journal;
      StepBack(n);
      ghost var j := journal[..n];
      assert Shelf(j) <= Shelf(journal);
      journal := journal[..n];
      assert Prior(j, Now());
    }

    /** An account made anew keeps the balance of the one it replaces. */
    method CreateAccount(a: Address)
      requires Valid()
      modifies this, Repr()
      ensures Valid() && SameObjects() && Kept() && a in Marked()
      ensures Now() == WithAcct(old(Now()), a, NEW_ACCT.(balance := if a in old(Now()).accts then old(Now()).accts[a].balance else 0))
    {
      hide Prior, Accts, ObjectView, Base, Shelf;
      var found := GetStateObject(a, journal, Now());
      if found == null {
        var o := Begin(a);
      } else {
        Renew(a, found);
      }
    }

    method Renew(a: Address, prev: StateObject)
      requires Valid() && Owns(prev) && prev.address == a
      modifies this`objects, this`dirty, this`journal, this`deltas, this`history
      ensures Valid() && SameObjects() && a in old(Now()).accts && a in Marked() && old(dirty) <= dirty
      ensures Now() == WithAcct(old(Now()), a, NEW_ACCT.(balance := old(Now()).accts[a].balance))
    {
      hide Base, Prior, Accts, ObjectView, AccountView, InTrie, OnlyAt, Tidy;
      ghost var v := Now();
      OwnedNow(prev);
      assert v.accts[a].balance == prev.data.balance by { BalanceSeen(prev, codes); }
      ghost var marked := Marked();
      EnrollWith(a, prev.data.balance);
      Ousted(old(objects), a, objects[a], prev);
      NoteReset(prev, v, marked, NEW_ACCT.(balance := prev.data.balance));
    }

    method EnrollWith(a: Address, balance: int)
      requires Valid()
      modifies this`objects, this`dirty
      ensures Base() && Prior(journal, old(Now()))
      ensures Now() == WithAcct(old(Now()), a, NEW_ACCT.(balance := balance))
      ensures a in Marked() && old(dirty) <= dirty
      ensures a in objects && fresh(objects[a]) && objects == old(objects)[a := objects[a]]
    {
      hide Past, Accts, ObjectView, Base, Shelved;
      ghost var v := Now();
      var o := Enroll(a);
      Focus(objects, accounts, codes, a);
      assert ObjectView(o, codes) == Now().accts[a] == NEW_ACCT;
      PutBalance(o, balance, journal, v);
      WithAcctTwice(v, a, NEW_ACCT, NEW_ACCT.(balance := balance));
    }

    // ---- reading ----

    method Exist(a: Address) returns (found: bool)
      requires Valid()
      modifies this`objects
      ensures Valid() && Now() == old(Now()) && SameObjects() && found == (a in Now().accts)
    {
      hide Prior, Accts, Base, ObjectView;
      var o := GetStateObject(a, journal, Now());
      found := o != null;
    }

    method GetBalance(a: Address) returns (balance: int)
      requires Valid()
      modifies this`objects
      ensures Valid() && Now() == old(Now()) && SameObjects()
      ensures balance == BalanceIn(Now(), a)
    {
      hide Prior, Accts, Base;
      var o := GetStateObject(a, journal, Now());
      if o == null {
        return 0;
      }
      Focus(objects, accounts, codes, a);
      balance := o.data.balance;
    }

    method GetNonce(a: Address) returns (nonce: Uint64)
      requires Valid()
      modifies this`objects
      ensures Valid() && Now() == old(Now()) && SameObjects()
      ensures nonce == NonceIn(Now(), a)
    {
      hide Prior, Accts, Base;
      var o := GetStateObject(a, journal, Now());
      if o == null {
        return 0;
      }
      Focus(objects, accounts, codes, a);
      nonce := o.data.nonce;
    }

    // ---- finalising ----

    method Remove(o: StateObject)
      requires Base() && o.address in objects && objects[o.address] == o && (o.suicided || o.Empty())
      modifies this`accounts, o`deleted
      ensures Base() && Now() == old(Now()).(accts := old(Now()).accts - {o.address}) && accounts == old(accounts) - {o.address}
    {
      hide Accts, ObjectView, AllTidy;
      var a := o.address;
      Apart(objects, accounts, a);
      if o.deleted {
        FocusGone(objects, accounts, codes, a);
      } else {
        Focus(objects, accounts, codes, a);
      }
      ghost var rest := Accts(objects - {a}, accounts - {a}, codes);
      RestLacks(objects, accounts, codes, a);
      assert Now().accts - {a} == rest;
      Bury(o, rest);
    }

    method Bury(o: StateObject, ghost rest: map<Address, Acct>)
      requires Base() && o.address in objects && objects[o.address] == o && (o.suicided || o.Empty())
      requires rest == Accts(objects - {o.address}, accounts - {o.address}, codes)
      modifies this`accounts, o`deleted
      ensures Base() && Now() == old(Now()).(accts := rest) && accounts == old(accounts) - {o.address}
    {
      hide Accts, ObjectView, AllTidy;
      var a := o.address;
      Apart(objects, accounts, a);
      o.deleted := true;
      accounts := accounts - {a};
      assert accounts - {a} == old(accounts) - {a};
      FocusGone(objects, accounts, codes, a);
    }

    method Update(o: StateObject)
      requires Base() && Owns(o)
      modifies this`accounts, o`data, o`dirtyKeys
      ensures Base() && Now() == old(Now()) && accounts == old(accounts)[o.address := o.data]
      ensures o.data == old(o.data).(storage := o.data.storage) && forall k :: WordAt(ObjectView(o, codes).storage, k) == WordAt(o.data.storage, k)
    {
      hide Accts, Words, CodeFrom, Clean, AllTidy, Marked, Booked;
      var a := o.address;
      Focus(objects, accounts, codes, a);
      Apart(objects, accounts, a);
      TidyAt(objects, a);
      CleanFlushed(o.cached, o.dirtyKeys, o.data.storage);
      WordsFlushed(o.cached, o.data.storage, o.dirtyKeys);
      ghost var rest := Accts(objects - {a}, accounts - {a}, codes);
      o.UpdateTrie();
      TidyJoin(objects, a);
      assert rest == Accts(objects - {a}, accounts - {a}, codes);
      accounts := accounts[a := o.data];
      assert accounts - {a} == old(accounts) - {a};
      Focus(objects, accounts, codes, a);
      CleanWords(o.cached, o.data.storage);
    }

    method Sweep(a: Address)
      requires Base() && a in dirty
      modifies this`accounts, objects.Values
      ensures Base() && Now() == Swept(old(Now()), {a}) && Persisted(Now().accts, accounts, a)
      ensures OnlyAt(old(accounts), accounts, a)
    {
      hide Accts, Words, CodeFrom;
      var o := objects[a];
      if o.deleted {
        FocusGone(objects, accounts, codes, a);
        RestLacks(objects, accounts, codes, a);
      } else {
        Focus(objects, accounts, codes, a);
      }
      if o.suicided || o.Empty() {
        assert old(Now()).accts - {a} == Swept(old(Now()), {a}).accts;
        Remove(o);
      } else {
        assert old(Now()).accts == Swept(old(Now()), {a}).accts;
        Update(o);
        Focus(objects, accounts, codes, a);
      }
    }

    method Finalise()
      requires Valid()
      modifies this, Repr()
      ensures Valid() && SameObjects() && journal == [] && validRevisions == [] && dirty == old(dirty)
      ensures Now() == Swept(old(Now()), old(dirty)).(refund := 0)
      ensures codes == old(codes) && thash == old(thash) && taken == old(taken)
      ensures forall a :: Persisted(Now().accts, accounts, a) <==> a in old(dirty) || old(Persisted(Now().accts, accounts, a))
      ensures lost == old(lost) && forall a | a !in lost :: Persisted(Now().accts, accounts, a)
    {
      hide Accts, Prior, Swept, Base, Persisted, InTrie, Same, AgreeOff;
      ghost var v := Now();
      SweptOff(v, dirty);
      SweepAll();
      PersistedOff(v.accts, old(accounts), Now().accts, accounts, dirty);
      AllPersisted();
      ClearJournalAndRefund();
    }

    /** An account that is not marked has not ended. */
    lemma {:induction false} UnmarkedLive()
      requires Valid()
      ensures forall a | a in Now().accts && a !in Marked() :: !Now().accts[a].suicided
    {
      hide Accts, Base, Prior;
      forall a | a in Now().accts && a !in Marked() ensures !Now().accts[a].suicided {
        assert Same(Now().accts, accounts, codes, a);
      }
    }

    /** What is not dirty is in the trie as it is seen. */
    lemma {:induction false} AllPersisted()
      requires Synced() && forall a | a in dirty :: Persisted(Now().accts, accounts, a)
      ensures forall a | a !in lost :: Persisted(Now().accts, accounts, a)
    {
      hide Accts, Persisted, Same;
      forall a | a !in lost ensures Persisted(Now().accts, accounts, a) {
        if a !in dirty {
          SamePersisted(Now().accts, accounts, codes, a);
        }
      }
    }

    method SweepAll()
      requires Base() && Synced()
      modifies this`accounts, objects.Values
      ensures Synced() && AgreeOff(old(accounts), accounts, dirty)
      ensures Base() && Now() == Swept(old(Now()), dirty) && forall a | a in dirty :: Persisted(Now().accts, accounts, a)
    {
      hide Accts, Swept, Base, Persisted, OnlyAt, InTrie, AgreeOff;
      ghost var v := Now();
      SweptNone(v);
      AgreeSame(accounts, dirty);
      var rest := dirty;
      assert dirty - rest == {};
      while rest != {}
        invariant rest <= dirty && Base() && Synced() && Now() == Swept(v, dirty - rest)
        invariant forall b | b in dirty && b !in rest :: Persisted(Now().accts, accounts, b)
        invariant AgreeOff(old(accounts), accounts, dirty)
        decreases |rest|
      {
        var a :| a in rest;
        ghost var accts, was := Now().accts, accounts;
        SweptNext(v, dirty - rest, a);
        SweptOnlyAt(Now(), a);
        Sweep(a);
        AgreeNext(old(accounts), was, accounts, dirty, a);
        InTrieSwept(accts, was, Now().accts, accounts, codes, Marked(), a);
        forall b | b in dirty && b !in rest ensures Persisted(Now().accts, accounts, b) {
          PersistedKept(accts, was, Now().accts, accounts, a, b);
        }
        assert dirty - (rest - {a}) == (dirty - rest) + {a};
        rest := rest - {a};
      }
      assert dirty - rest == dirty;
    }

    method ClearJournalAndRefund()
      requires Base() && Synced()
      modifies this`journal, this`validRevisions, this`refund, this`deltas, this`history
      ensures Valid() && journal == [] && validRevisions == [] && Now() == old(Now()).(refund := 0)
    {
      hide Accts, Base, Past, InTrie;
      refund := 0;
      ClearJournal();
      assert Past([], Now());
    }

    method ClearJournal()
      modifies this`journal, this`validRevisions, this`deltas, this`history
      ensures journal == [] && validRevisions == [] && forall v: View :: Past([], v)
    {
      journal, validRevisions, deltas, history := [], [], [], [];
    }

    /** The transaction that logs are attributed to from now on. */
    method Prepare(thash: Digest)
      requires Valid()
      modifies this`thash
      ensures Valid() && this.thash == thash && Now() == old(Now())
    {
      hide Past, Base, Accts;
      this.thash := thash;
    }
  }

  /** A database with one empty account, whose object is loaded and touched. */
  method OneTouched(e: Address) returns (db: StateDB, o: StateObject)
    ensures fresh(db) && fresh(o) && db.Valid() && db.validRevisions == [] && db.Owns(o) && o.address == e && !o.armed
    ensures db.accounts == map[e := Account(0, 0, map[], EMPTY_CODE)] && db.objects == map[e := o]
    ensures db.journal == [TouchChange(e, false, false)]
  {
    hide Accts, InTrie, StateDB.Base, StateDB.Past, Shelved, Logged;
    db := new StateDB(map[e := Account(0, 0, map[], EMPTY_CODE)], map[]);
    o := db.Load(e, db.journal, db.Now());
    db.Touch(o);
  }

  /** An empty account is touched, the touch is undone, and then the balance is set: the change never reaches the trie. */
  method LostMark() returns (db: StateDB, e: Address)
    ensures db.Valid() && e in db.lost && !Persisted(db.Now().accts, db.accounts, e)
  {
    hide StateDB.Valid, StateDB.Now;
    e := [7];
    var o;
    db, o := OneTouched(e);
    assert Shelf(db.journal) == {};
    db.UndoLast();
    db.SetBalanceOf(o, 5);
    db.Finalise();
  }
}
