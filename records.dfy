/**
 * Record normalisation in `generate_scores`: every raw event becomes one
 * record (the loop that appends to `records`), then pandas' `dropna` on the
 * `wallet` and `amount` columns discards the records that lack either.
 */
module Records {
  import opened Wrappers

  /**
   * A numeric field of an event's `actionData` as it arrives: the key is
   * absent, its value is one `pd.to_numeric` can read as a number, or it is
   * anything else (which `errors='coerce'` turns into NaN).
   */
  datatype RawNumber = Absent | Numeric(value: real) | Unparsable

  /**
   * One raw event. An event without `actionData` is one whose three
   * `actionData` fields are all absent.
   */
  datatype RawEvent = RawEvent(
    userWallet: Option<string>,
    action: Option<string>,
    amount: RawNumber,
    assetSymbol: Option<string>,
    assetPriceUSD: RawNumber)

  /** A row of the records frame before `dropna`; `None` is a missing value or NaN. */
  datatype Draft = Draft(
    wallet: Option<string>,
    action: Option<string>,
    amount: Option<real>,
    asset: Option<string>,
    priceUsd: Option<real>)

  /** A row that survived `dropna`: its wallet and its amount are present. */
  datatype Record = Record(
    wallet: string,
    action: Option<string>,
    amount: real,
    asset: Option<string>,
    priceUsd: Option<real>)

  /** `pd.to_numeric(ad.get(key, 0), errors='coerce')`. */
  function ToNumeric(f: RawNumber): Option<real>
  {
    match f
    case Absent => Some(0.0)
    case Numeric(x) => Some(x)
    case Unparsable => None
  }

  /** The record built for one event in the body of the loop. */
  function Normalize(e: RawEvent): Draft
  {
    Draft(e.userWallet, e.action, ToNumeric(e.amount), e.assetSymbol, ToNumeric(e.assetPriceUSD))
  }

  /** The whole `records` list, one record per event, in input order. */
  function NormalizeAll(raw: seq<RawEvent>): seq<Draft>
  {
    seq(|raw|, i requires 0 <= i < |raw| => Normalize(raw[i]))
  }

  /** The loop that builds `records` by appending one record per event. */
  method BuildRecords(raw: seq<RawEvent>) returns (records: seq<Draft>)
    ensures |records| == |raw|
    ensures forall i :: 0 <= i < |raw| ==> records[i] == Normalize(raw[i])
    ensures records == NormalizeAll(raw)
  {
    records := [];
    var i := 0;
    while i < |raw|
      invariant 0 <= i <= |raw|
      invariant |records| == i
      invariant forall k :: 0 <= k < i ==> records[k] == Normalize(raw[k])
    {
      var record := Normalize(raw[i]);
      records := records + [record];
      i := i + 1;
    }
  }

  /** The test `dropna(subset=['wallet', 'amount'])` applies to one row. */
  predicate HasWalletAndAmount(d: Draft)
  {
    d.wallet.Some? && d.amount.Some?
  }

  function ToRecord(d: Draft): Record
    requires HasWalletAndAmount(d)
  {
    Record(d.wallet.value, d.action, d.amount.value, d.asset, d.priceUsd)
  }

  /**
   * `dropna(subset=['wallet', 'amount'])`: the rows with a wallet and an
   * amount, in their original order, and no others.
   */
  function DropNa(ds: seq<Draft>): (kept: seq<Record>)
    ensures |kept| <= |ds|
    ensures forall i :: 0 <= i < |ds| && HasWalletAndAmount(ds[i]) ==> ToRecord(ds[i]) in kept
    ensures forall r :: r in kept ==>
      exists i :: 0 <= i < |ds| && HasWalletAndAmount(ds[i]) && ToRecord(ds[i]) == r
    ensures (forall i :: 0 <= i < |ds| ==> HasWalletAndAmount(ds[i])) ==> |kept| == |ds|
    ensures |ds| == 1 ==> kept == if HasWalletAndAmount(ds[0]) then [ToRecord(ds[0])] else []
  {
    if ds == [] then []
    else
      var rest := DropNa(ds[1..]);
      assert forall r :: r in rest ==>
        exists i :: 0 <= i < |ds| && HasWalletAndAmount(ds[i]) && ToRecord(ds[i]) == r by {
        forall r | r in rest
          ensures exists i :: 0 <= i < |ds| && HasWalletAndAmount(ds[i]) && ToRecord(ds[i]) == r
        {
          var k :| 0 <= k < |ds| - 1 && HasWalletAndAmount(ds[1..][k]) && ToRecord(ds[1..][k]) == r;
          assert ds[k + 1] == ds[1..][k];
        }
      }
      assert forall i :: 1 <= i < |ds| && HasWalletAndAmount(ds[i]) ==> ToRecord(ds[i]) in rest by {
        forall i | 1 <= i < |ds| && HasWalletAndAmount(ds[i]) ensures ToRecord(ds[i]) in rest {
          assert ds[i] == ds[1..][i - 1];
        }
      }
      if HasWalletAndAmount(ds[0]) then [ToRecord(ds[0])] + rest else rest
  }

  /**
   * `dropna` works row by row: filtering two stretches of rows one after
   * the other gives the filtered first stretch followed by the filtered
   * second. With the one-row case of `DropNa`, this fixes the order and
   * the number of copies of every kept row.
   */
  lemma {:induction false} DropNaConcat(a: seq<Draft>, b: seq<Draft>)
    ensures DropNa(a + b) == DropNa(a) + DropNa(b)
  {
    if a != [] {
      assert (a + b)[1..] == a[1..] + b;
      DropNaConcat(a[1..], b);
    } else {
      assert a + b == b;
    }
  }

  /**
   * Which events survive normalisation and `dropna`: exactly those with a
   * wallet whose amount is absent or numeric. An absent amount becomes 0,
   * an unparsable one drops the event.
   */
  lemma SurvivalRule(e: RawEvent)
    ensures HasWalletAndAmount(Normalize(e)) <==>
      e.userWallet.Some? && (e.amount.Absent? || e.amount.Numeric?)
    ensures e.amount.Absent? ==> Normalize(e).amount == Some(0.0)
    ensures e.amount.Unparsable? ==> !HasWalletAndAmount(Normalize(e))
  {
  }

  /**
   * The price never decides whether an event survives; an absent price
   * becomes 0, an unparsable one stays NaN in the kept record.
   */
  lemma PriceNeverDrops(e: RawEvent, p: RawNumber)
    ensures HasWalletAndAmount(Normalize(e.(assetPriceUSD := p))) == HasWalletAndAmount(Normalize(e))
    ensures p.Absent? ==> Normalize(e.(assetPriceUSD := p)).priceUsd == Some(0.0)
    ensures p.Unparsable? ==> Normalize(e.(assetPriceUSD := p)).priceUsd == None
  {
  }

  /** An event survives normalisation and `dropna`. */
  predicate Survives(e: RawEvent)
  {
    e.userWallet.Some? && !e.amount.Unparsable?
  }

  /** Some record belongs to wallet `w`. */
  predicate HasRecords(rs: seq<Record>, w: string)
  {
    exists r :: r in rs && r.wallet == w
  }

  /** Some surviving event belongs to wallet `w`. */
  predicate Contributes(raw: seq<RawEvent>, w: string)
  {
    exists i :: 0 <= i < |raw| && Survives(raw[i]) && raw[i].userWallet == Some(w)
  }

  /** The number of surviving events of wallet `w`. */
  function SurvivorsOf(raw: seq<RawEvent>, w: string): nat
  {
    if raw == [] then 0
    else (if Survives(raw[0]) && raw[0].userWallet == Some(w) then 1 else 0) + SurvivorsOf(raw[1..], w)
  }

  /** The number of surviving events. */
  function SurvivorCount(raw: seq<RawEvent>): nat
  {
    if raw == [] then 0 else (if Survives(raw[0]) then 1 else 0) + SurvivorCount(raw[1..])
  }

  /**
   * End to end, the kept records carry exactly the wallets of the
   * surviving events.
   */
  lemma KeptWallets(raw: seq<RawEvent>)
    ensures forall w :: HasRecords(DropNa(NormalizeAll(raw)), w) <==> Contributes(raw, w)
  {
    var ds := NormalizeAll(raw);
    var kept := DropNa(ds);
    forall w
      ensures HasRecords(kept, w) <==> Contributes(raw, w)
    {
      if r :| r in kept && r.wallet == w {
        var i :| 0 <= i < |ds| && HasWalletAndAmount(ds[i]) && ToRecord(ds[i]) == r;
        assert Survives(raw[i]) && raw[i].userWallet == Some(w);
      }
      if i :| 0 <= i < |raw| && Survives(raw[i]) && raw[i].userWallet == Some(w) {
        assert HasWalletAndAmount(ds[i]);
        assert ToRecord(ds[i]) in kept;
      }
    }
  }

  /** One kept record per surviving event, no more and no fewer. */
  lemma {:induction false} KeptCount(raw: seq<RawEvent>)
    ensures |DropNa(NormalizeAll(raw))| == SurvivorCount(raw)
  {
    if raw != [] {
      KeptCount(raw[1..]);
      var ds := NormalizeAll(raw);
      assert ds[1..] == NormalizeAll(raw[1..]);
      assert HasWalletAndAmount(ds[0]) == Survives(raw[0]);
    }
  }
}
