/** DRC-20 tables: terms, minted supply and available balances; the messages
    that change them and the undo a rollback applies. All amounts are u128 and
    the arithmetic wraps, as a release build does. */
module Drc20 {
  import opened Prelude
  import opened ChainTypes
  import opened Decimal

  datatype Holder = Holder(script: Script, ticker: Ticker)

  type Decimals = d: nat | d <= 18

  datatype Terms = Terms(max: u128, limit: u128, dec: Decimals, deployId: InscriptionId)

  /** Supplies and balances never store a zero. */
  datatype Ledger = Ledger(terms: map<Ticker, Terms>, supply: map<Ticker, u128>, balances: map<Holder, u128>)

  /** A decoded drc-20 JSON message; `ticker` is lower-cased, `tickLen` is the
      byte length of the ticker as written. */
  datatype RawMessage = RawMessage(
    op: string, tickLen: nat, ticker: Ticker,
    max: Option<string>, lim: Option<string>, dec: Option<string>, amt: Option<string>)

  datatype Message =
    | Deploy(ticker: Ticker)
    | Mint(ticker: Ticker, amount: u128, receiver: Script)
    | Transferred(ticker: Ticker, amount: u128, source: TxoRef, receiver: Script)
    | TransferInit(ticker: Ticker, amount: u128, receiver: Script)

  // ----- table access -----

  function Balance(l: Ledger, h: Holder): u128 {
    if h in l.balances then l.balances[h] else 0
  }

  function SetBalance(l: Ledger, h: Holder, v: u128): Ledger {
    l.(balances := if v == 0 then l.balances - {h} else l.balances[h := v])
  }

  function Supply(l: Ledger, t: Ticker): u128 {
    if t in l.supply then l.supply[t] else 0
  }

  function SetSupply(l: Ledger, t: Ticker, v: u128): Ledger {
    l.(supply := if v == 0 then l.supply - {t} else l.supply[t := v])
  }

  ghost predicate NoStoredZero(l: Ledger) {
    && (forall h <- l.balances :: l.balances[h] != 0)
    && (forall t <- l.supply :: l.supply[t] != 0)
  }

  function Credit(l: Ledger, h: Holder, amount: u128): Ledger {
    SetBalance(l, h, AddU128(Balance(l, h), amount))
  }

  function Debit(l: Ledger, h: Holder, amount: u128): Ledger {
    SetBalance(l, h, SubU128(Balance(l, h), amount))
  }

  lemma DebitCredit(l: Ledger, h: Holder, amount: u128)
    requires NoStoredZero(l)
    ensures Debit(Credit(l, h, amount), h, amount) == l
    ensures Credit(Debit(l, h, amount), h, amount) == l
    ensures NoStoredZero(Credit(l, h, amount)) && NoStoredZero(Debit(l, h, amount))
  {
    SetBalanceBack(l, h, AddU128(Balance(l, h), amount));
    SetBalanceBack(l, h, SubU128(Balance(l, h), amount));
  }

  lemma SetBalanceBack(l: Ledger, h: Holder, v: u128)
    requires NoStoredZero(l)
    ensures SetBalance(SetBalance(l, h, v), h, Balance(l, h)) == l
    ensures Balance(SetBalance(l, h, v), h) == v
    ensures NoStoredZero(SetBalance(l, h, v))
  {
    assert SetBalance(SetBalance(l, h, v), h, Balance(l, h)).balances == l.balances;
  }

  lemma SetSupplyBack(l: Ledger, t: Ticker, v: u128)
    requires NoStoredZero(l)
    ensures SetSupply(SetSupply(l, t, v), t, Supply(l, t)) == l
    ensures Supply(SetSupply(l, t, v), t) == v
    ensures NoStoredZero(SetSupply(l, t, v))
  {
    assert SetSupply(SetSupply(l, t, v), t, Supply(l, t)).supply == l.supply;
  }

  // ----- reading a message -----

  function Amount(text: Option<string>, dec: Decimals): Option<u128> {
    if text.None? then None
    else
      match ParseDecimal(text.value, dec)
      case None => None
      case Some(x) =>
        ScaledFits(text.value, dec);
        Some(x)
  }

  function DecimalsOf(raw: RawMessage): Option<Decimals> {
    var s := if raw.dec.Some? then raw.dec.value else "18";
    if AllDigits(s) && s != "" && Digits(s) <= 18 then Some(Digits(s)) else None
  }

  /** The terms a deploy message asks for, if it is well formed. */
  function DeployOf(raw: RawMessage, id: InscriptionId): Option<Terms> {
    if raw.op != "deploy" || raw.tickLen != 4 then None
    else
      match DecimalsOf(raw)
      case None => None
      case Some(dec) =>
        var max := Amount(raw.max, dec);
        if max.None? || max.value == 0 then None
        else if raw.lim.None? then Some(Terms(max.value, max.value, dec, id))
        else
          var lim := Amount(raw.lim, dec);
          if lim.None? || lim.value == 0 then None
          else Some(Terms(max.value, lim.value, dec, id))
  }

  function MintOf(raw: RawMessage, terms: Terms): Option<u128> {
    if raw.op != "mint" then None
    else
      var a := Amount(raw.amt, terms.dec);
      if a.None? || terms.limit < a.value || a.value == 0 then None else a
  }

  function TransferOf(raw: RawMessage, terms: Terms): Option<u128> {
    if raw.op != "transfer" then None
    else
      var a := Amount(raw.amt, terms.dec);
      if a.None? || a.value == 0 then None else a
  }

  // ----- processing a message -----

  /** The ledger after a message, the message if it was valid, and the transfer
      it locked, if any. */
  datatype Outcome = Outcome(ledger: Ledger, valid: Option<Message>, locked: Option<Transfer>)

  function Rejected(l: Ledger): Outcome {
    Outcome(l, None, None)
  }

  function ProcessMint(l: Ledger, raw: RawMessage, terms: Terms, amount: u128, receiver: Option<Script>): Outcome {
    var t := raw.ticker;
    var supply := Supply(l, t);
    if receiver.None? || supply == terms.max then Rejected(l)
    else
      var minted := Min(amount, SubU128(terms.max, supply));
      var l1 := SetSupply(l, t, AddU128(supply, minted));
      Outcome(Credit(l1, Holder(receiver.value, t), minted), Some(Mint(t, minted, receiver.value)), None)
  }

  function ProcessTransfer(l: Ledger, raw: RawMessage, amount: u128, receiver: Option<Script>): Outcome {
    if receiver.None? then Rejected(l)
    else
      var h := Holder(receiver.value, raw.ticker);
      if h !in l.balances || l.balances[h] < amount then Rejected(l)
      else Outcome(Debit(l, h, amount), Some(TransferInit(raw.ticker, amount, receiver.value)),
                   Some(Transfer(raw.ticker, amount)))
  }

  function Process(l: Ledger, raw: RawMessage, id: InscriptionId, receiver: Option<Script>): Outcome {
    var t := raw.ticker;
    var deploy := DeployOf(raw, id);
    if deploy.Some? then
      if t in l.terms then Rejected(l)
      else Outcome(l.(terms := l.terms[t := deploy.value]), Some(Deploy(t)), None)
    else if t !in l.terms then Rejected(l)
    else if MintOf(raw, l.terms[t]).Some? then
      ProcessMint(l, raw, l.terms[t], MintOf(raw, l.terms[t]).value, receiver)
    else if TransferOf(raw, l.terms[t]).Some? then
      ProcessTransfer(l, raw, TransferOf(raw, l.terms[t]).value, receiver)
    else Rejected(l)
  }

  // ----- undo -----

  function UndoMessage(l: Ledger, m: Message): Ledger {
    match m
    case Deploy(t) => l.(terms := l.terms - {t})
    case Mint(t, amount, receiver) =>
      Debit(SetSupply(l, t, SubU128(Supply(l, t), amount)), Holder(receiver, t), amount)
    case Transferred(t, amount, _, receiver) => Debit(l, Holder(receiver, t), amount)
    case TransferInit(t, amount, receiver) => Credit(l, Holder(receiver, t), amount)
  }

  /** Undoes the messages of a block, last one first. */
  function UndoMessages(l: Ledger, ms: seq<Message>): Ledger
    decreases |ms|
  {
    if ms == [] then l else UndoMessages(UndoMessage(l, ms[|ms| - 1]), ms[..|ms| - 1])
  }

  lemma {:induction false} UndoMessagesConcat(l: Ledger, a: seq<Message>, b: seq<Message>)
    ensures UndoMessages(l, a + b) == UndoMessages(UndoMessages(l, b), a)
    decreases |b|
  {
    if b == [] {
      assert a + b == a;
    } else {
      assert (a + b)[..|a + b| - 1] == a + b[..|b| - 1];
      UndoMessagesConcat(UndoMessage(l, b[|b| - 1]), a, b[..|b| - 1]);
    }
  }

  lemma MintUndone(l: Ledger, t: Ticker, minted: u128, receiver: Script)
    requires NoStoredZero(l)
    ensures var l1 := SetSupply(l, t, AddU128(Supply(l, t), minted));
      var l2 := Credit(l1, Holder(receiver, t), minted);
      UndoMessage(l2, Mint(t, minted, receiver)) == l && NoStoredZero(l2)
  {
    var h := Holder(receiver, t);
    var v := AddU128(Supply(l, t), minted);
    var l1 := SetSupply(l, t, v);
    var l2 := Credit(l1, h, minted);
    SetSupplyBack(l, t, v);
    DebitCredit(l1, h, minted);
    assert Supply(l2, t) == v;
    var l3 := SetSupply(l2, t, Supply(l, t));
    assert l3 == Credit(l, h, minted);
    DebitCredit(l, h, minted);
  }

  /** Whatever a message did, its undo takes back exactly. */
  lemma ProcessUndone(l: Ledger, raw: RawMessage, id: InscriptionId, receiver: Option<Script>)
    requires NoStoredZero(l)
    ensures var o := Process(l, raw, id, receiver);
      && NoStoredZero(o.ledger)
      && UndoMessages(o.ledger, if o.valid.Some? then [o.valid.value] else []) == l
  {
    var o := Process(l, raw, id, receiver);
    if o.valid.Some? {
      UndoOne(o.ledger, o.valid.value);
      match o.valid.value {
        case Deploy(t) =>
          assert o.ledger.terms - {t} == l.terms;
        case Mint(t, minted, to) =>
          MintUndone(l, t, minted, to);
        case Transferred(_, _, _, _) =>
        case TransferInit(t, amount, to) =>
          DebitCredit(l, Holder(to, t), amount);
      }
    }
  }

  lemma UndoOne(l: Ledger, m: Message)
    ensures UndoMessages(l, [m]) == UndoMessage(l, m)
  {
    assert [m][..0] == [];
  }

  // ----- totals -----

  ghost function Of(balances: map<Holder, u128>, t: Ticker): map<Holder, int> {
    map h | h in balances && h.ticker == t :: balances[h]
  }

  /** Sum of the available balances of a ticker. */
  ghost function Available(l: Ledger, t: Ticker): int {
    Sum(Of(l.balances, t))
  }

  lemma SetBalanceAvailable(l: Ledger, h: Holder, v: u128, t: Ticker)
    ensures Available(SetBalance(l, h, v), t)
         == Available(l, t) + if h.ticker == t then v - Balance(l, h) else 0
  {
    var m := Of(l.balances, t);
    var m' := Of(SetBalance(l, h, v).balances, t);
    if h.ticker != t {
      assert m' == m;
    } else if v == 0 {
      assert m' == m - {h};
      if h in m {
        SumRemove(m, h);
      } else {
        assert m - {h} == m;
      }
    } else {
      assert m' == m[h := v];
      SumSet(m, h, v);
    }
  }

  lemma BalanceWithinAvailable(l: Ledger, h: Holder)
    ensures 0 <= Balance(l, h) <= Available(l, h.ticker)
  {
    SumNonNegative(Of(l.balances, h.ticker));
    if h in l.balances {
      assert h in Of(l.balances, h.ticker);
    }
  }

  /** A credit that stays within the supply does not wrap. */
  lemma CreditAvailable(l: Ledger, h: Holder, amount: u128, t: Ticker)
    requires Available(l, h.ticker) + amount < U128
    ensures Available(Credit(l, h, amount), t) == Available(l, t) + if h.ticker == t then amount else 0
  {
    BalanceWithinAvailable(l, h);
    SetBalanceAvailable(l, h, AddU128(Balance(l, h), amount), t);
  }

  /** Minted supply is backed by available balances plus locked amounts and never
      passes the maximum; an undeployed ticker has none. */
  ghost predicate Backed(l: Ledger, t: Ticker, locked: int) {
    && locked >= 0
    && Available(l, t) + locked == Supply(l, t)
    && (t in l.terms ==> Supply(l, t) <= l.terms[t].max)
    && (t !in l.terms ==> Supply(l, t) == 0)
  }

  lemma MintBacked(l: Ledger, raw: RawMessage, amount: u128, receiver: Option<Script>, t: Ticker, locked: int)
    requires raw.ticker in l.terms && Backed(l, t, locked)
    ensures var o := ProcessMint(l, raw, l.terms[raw.ticker], amount, receiver);
      o.locked.None? && Backed(o.ledger, t, locked)
  {
    var tick := raw.ticker;
    var max := l.terms[tick].max;
    var supply := Supply(l, tick);
    if receiver.Some? && supply != max {
      var h := Holder(receiver.value, tick);
      var minted := Min(amount, SubU128(max, supply));
      var l1 := SetSupply(l, tick, AddU128(supply, minted));
      assert Available(l1, t) == Available(l, t);
      if tick == t {
        CreditAvailable(l1, h, minted, t);
      } else {
        SetBalanceAvailable(l1, h, AddU128(Balance(l1, h), minted), t);
      }
    }
  }

  lemma TransferBacked(l: Ledger, raw: RawMessage, amount: u128, receiver: Option<Script>, t: Ticker, locked: int)
    requires Backed(l, t, locked)
    ensures var o := ProcessTransfer(l, raw, amount, receiver);
      Backed(o.ledger, t, locked + Locks(o.locked, t))
  {
    if receiver.Some? {
      var h := Holder(receiver.value, raw.ticker);
      SetBalanceAvailable(l, h, SubU128(Balance(l, h), amount), t);
    }
  }

  function Locks(locked: Option<Transfer>, t: Ticker): int {
    if locked.Some? && locked.value.ticker == t then locked.value.amount else 0
  }

  /** A message keeps every ticker backed; the amount it locks is accounted for. */
  lemma ProcessBacked(l: Ledger, raw: RawMessage, id: InscriptionId, receiver: Option<Script>, t: Ticker, locked: int)
    requires Backed(l, t, locked)
    ensures var o := Process(l, raw, id, receiver);
      Backed(o.ledger, t, locked + Locks(o.locked, t))
  {
    var tick := raw.ticker;
    if DeployOf(raw, id).None? && tick in l.terms {
      if MintOf(raw, l.terms[tick]).Some? {
        MintBacked(l, raw, MintOf(raw, l.terms[tick]).value, receiver, t, locked);
      } else if TransferOf(raw, l.terms[tick]).Some? {
        TransferBacked(l, raw, TransferOf(raw, l.terms[tick]).value, receiver, t, locked);
      }
    }
  }

  // ----- what messages mean -----

  /** A mint brings the supply to the maximum or up by its amount, whichever is less,
      and credits exactly the difference to its receiver and nobody else. */
  lemma MintReaches(l: Ledger, raw: RawMessage, amount: u128, receiver: Script, locked: int, h: Holder)
    requires raw.ticker in l.terms && Backed(l, raw.ticker, locked) && amount > 0
    ensures var o := ProcessMint(l, raw, l.terms[raw.ticker], amount, Some(receiver));
      var now := Min(l.terms[raw.ticker].max, Supply(l, raw.ticker) + amount);
      && Supply(o.ledger, raw.ticker) == now
      && Balance(o.ledger, h)
         == Balance(l, h) + (if h == Holder(receiver, raw.ticker) then now - Supply(l, raw.ticker) else 0)
      && (o.valid.None? <==> Supply(l, raw.ticker) == l.terms[raw.ticker].max)
  {
    BalanceWithinAvailable(l, Holder(receiver, raw.ticker));
  }

  /** A transfer is initiated exactly if its receiver holds the amount, which then
      moves from the receiver's balance into the inscription. */
  lemma TransferIff(l: Ledger, raw: RawMessage, amount: u128, receiver: Option<Script>, h: Holder)
    requires NoStoredZero(l) && amount > 0
    ensures var o := ProcessTransfer(l, raw, amount, receiver);
      && (o.valid.Some? <==> receiver.Some? && amount <= Balance(l, Holder(receiver.value, raw.ticker)))
      && (o.valid.Some? <==> o.locked == Some(Transfer(raw.ticker, amount)))
      && Balance(o.ledger, h)
         == Balance(l, h) - (if o.valid.Some? && h == Holder(receiver.value, raw.ticker) then amount else 0)
      && o.ledger.supply == l.supply
  {
  }

  /** A ticker is deployed at most once: the first terms stay. */
  lemma DeployOnce(l: Ledger, raw: RawMessage, id: InscriptionId, receiver: Option<Script>, t: Ticker)
    ensures var o := Process(l, raw, id, receiver);
      && (t in l.terms ==> t in o.ledger.terms && o.ledger.terms[t] == l.terms[t])
      && (t !in l.terms && t in o.ledger.terms ==> t == raw.ticker && DeployOf(raw, id) == Some(o.ledger.terms[t]))
  {
  }
}
