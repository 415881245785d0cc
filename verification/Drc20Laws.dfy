/** When a DRC-20 message is accepted, and what it then does, from the text of the
    message alone. */
module Drc20Laws {
  import opened Prelude
  import opened ChainTypes
  import opened Decimal
  import opened Drc20

  /** The text is a positive amount. */
  predicate Positive(text: Option<string>, dec: nat) {
    text.Some? && WellFormed(text.value, dec) && 0 < Scaled(text.value, dec)
  }

  /** Nothing happened. */
  predicate Refused(l: Ledger, o: Outcome) {
    o == Outcome(l, None, None)
  }

  function BalanceOf(l: Ledger, script: Script, t: Ticker): int {
    if Holder(script, t) in l.balances then l.balances[Holder(script, t)] else 0
  }

  function Minted(l: Ledger, t: Ticker): int {
    if t in l.supply then l.supply[t] else 0
  }

  // ----- deploys -----

  /** Decimals are digits worth at most 18; without them there are 18. */
  ghost predicate AreDecimals(text: Option<string>, dec: nat) {
    if text.None? then dec == 18
    else text.value != "" && AllDigits(text.value) && Digits(text.value) == dec && dec <= 18
  }

  /** The terms that a deploy message may set. */
  ghost predicate Asks(raw: RawMessage, id: InscriptionId, terms: Terms) {
    && raw.tickLen == 4
    && AreDecimals(raw.dec, terms.dec)
    && Positive(raw.max, terms.dec) && terms.max == Scaled(raw.max.value, terms.dec)
    && (if raw.lim.None? then terms.limit == terms.max
        else Positive(raw.lim, terms.dec) && terms.limit == Scaled(raw.lim.value, terms.dec))
    && terms.deployId == id
  }

  lemma EighteenDigits()
    ensures AllDigits("18") && Digits("18") == 18
  {
    assert "18"[..1] == "1" && "1"[..0] == "";
    assert Digits("") == 0;
    assert Digits("1") == 1;
  }

  lemma DeployAsks(raw: RawMessage, id: InscriptionId, terms: Terms)
    requires raw.op == "deploy"
    ensures DeployOf(raw, id) == Some(terms) <==> Asks(raw, id, terms)
  {
    EighteenDigits();
    hide WellFormed, Scaled, Digits, AllDigits;
    AmountIs(raw.max, terms.dec);
    AmountIs(raw.lim, terms.dec);
    var dec := DecimalsOf(raw);
    if dec.Some? {
      AmountIs(raw.max, dec.value);
      AmountIs(raw.lim, dec.value);
    }
  }

  lemma AmountIs(text: Option<string>, dec: Decimals)
    ensures text.Some? && WellFormed(text.value, dec) ==> Amount(text, dec) == Some(Scaled(text.value, dec))
    ensures Amount(text, dec).Some? ==> text.Some? && WellFormed(text.value, dec)
  {
    hide WellFormed, Scaled;
  }

  /** A deploy is valid if and only if its ticker is new and its text asks for terms,
      which are then set; nothing else changes. */
  lemma DeployIff(l: Ledger, raw: RawMessage, id: InscriptionId, receiver: Option<Script>)
    requires raw.op == "deploy"
    ensures var o := Process(l, raw, id, receiver);
      && (o.valid.Some? <==> raw.ticker !in l.terms && exists terms :: Asks(raw, id, terms))
      && (o.valid.None? ==> Refused(l, o))
      && (o.valid.Some? ==>
            && o.valid.value == Deploy(raw.ticker) && o.locked.None?
            && o.ledger.supply == l.supply && o.ledger.balances == l.balances
            && raw.ticker in o.ledger.terms && Asks(raw, id, o.ledger.terms[raw.ticker])
            && o.ledger.terms - {raw.ticker} == l.terms)
  {
    var deploy := DeployOf(raw, id);
    if deploy.Some? {
      DeployAsks(raw, id, deploy.value);
      if raw.ticker !in l.terms {
        assert l.terms[raw.ticker := deploy.value] - {raw.ticker} == l.terms;
      }
    } else {
      forall terms ensures !Asks(raw, id, terms) {
        DeployAsks(raw, id, terms);
      }
    }
    assert raw.op != "mint" && raw.op != "transfer";
  }

  // ----- mints -----

  /** A mint is valid if and only if its ticker is deployed and not sold out, it has a
      receiver, and its text is a positive amount within the limit. Supply and the
      receiver's balance then grow by the amount or by what is left, whichever is less,
      and nothing else changes. */
  lemma MintIff(l: Ledger, raw: RawMessage, id: InscriptionId, receiver: Option<Script>, locked: int)
    requires raw.op == "mint" && Backed(l, raw.ticker, locked)
    ensures var o := Process(l, raw, id, receiver);
      var t := raw.ticker;
      && (o.valid.Some? <==>
            && t in l.terms && receiver.Some? && Minted(l, t) != l.terms[t].max
            && Positive(raw.amt, l.terms[t].dec) && Scaled(raw.amt.value, l.terms[t].dec) <= l.terms[t].limit)
      && (o.valid.None? ==> Refused(l, o))
      && (o.valid.Some? ==>
            var asked, left := Scaled(raw.amt.value, l.terms[t].dec), l.terms[t].max - Minted(l, t);
            var m := if asked <= left then asked else left;
            && o.valid.value == Mint(t, m, receiver.value) && o.locked.None? && o.ledger.terms == l.terms
            && (forall x :: Minted(o.ledger, x) == Minted(l, x) + if x == t then m else 0)
            && (forall s, x :: BalanceOf(o.ledger, s, x)
                            == BalanceOf(l, s, x) + if s == receiver.value && x == t then m else 0))
  {
    assert raw.op != "deploy" && raw.op != "transfer";
    hide WellFormed, Scaled, Available;
    if raw.ticker in l.terms {
      AmountIs(raw.amt, l.terms[raw.ticker].dec);
      if receiver.Some? {
        BalanceWithinAvailable(l, Holder(receiver.value, raw.ticker));
      }
    }
  }

  /** So no message raises a supply by more than the limit of its ticker. */
  lemma LimitHolds(l: Ledger, raw: RawMessage, id: InscriptionId, receiver: Option<Script>, t: Ticker, locked: int)
    requires Backed(l, t, locked)
    ensures var o := Process(l, raw, id, receiver);
      Minted(o.ledger, t) <= Minted(l, t) + if t in l.terms then l.terms[t].limit else 0
  {
    hide WellFormed, Scaled, Available;
    if raw.op == "mint" && raw.ticker == t {
      MintIff(l, raw, id, receiver, locked);
      hide Process;
    }
  }

  // ----- transfers -----

  /** A transfer is initiated if and only if its ticker is deployed and its text is a
      positive amount that its receiver holds. The amount then leaves the balance and
      is locked, and nothing else changes. */
  lemma TransferStarts(l: Ledger, raw: RawMessage, id: InscriptionId, receiver: Option<Script>)
    requires raw.op == "transfer"
    ensures var o := Process(l, raw, id, receiver);
      var t := raw.ticker;
      && (o.valid.Some? <==>
            && t in l.terms && receiver.Some? && Positive(raw.amt, l.terms[t].dec)
            && Scaled(raw.amt.value, l.terms[t].dec) <= BalanceOf(l, receiver.value, t))
      && (o.valid.None? ==> Refused(l, o))
      && (o.valid.Some? ==>
            var m := Scaled(raw.amt.value, l.terms[t].dec);
            && m < U128 && o.valid.value == TransferInit(t, m, receiver.value) && o.locked == Some(Transfer(t, m))
            && o.ledger.terms == l.terms && o.ledger.supply == l.supply
            && (forall s, x :: BalanceOf(o.ledger, s, x)
                            == BalanceOf(l, s, x) - if s == receiver.value && x == t then m else 0))
  {
    assert raw.op != "deploy" && raw.op != "mint";
    hide WellFormed, Scaled;
    if raw.ticker in l.terms {
      AmountIs(raw.amt, l.terms[raw.ticker].dec);
    }
  }

  /** No other operation does anything. */
  lemma OthersRefused(l: Ledger, raw: RawMessage, id: InscriptionId, receiver: Option<Script>)
    requires raw.op != "deploy" && raw.op != "mint" && raw.op != "transfer"
    ensures Refused(l, Process(l, raw, id, receiver))
  {
  }
}
