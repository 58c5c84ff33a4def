/**
 * `generate_scores` end to end, from the parsed events to the three score
 * tables. The cluster labels that `StandardScaler`, `PCA` and `KMeans`
 * compute from the feature table are an input here.
 */
module Pipeline {
  import opened Wrappers
  import opened StringOrder
  import opened Records
  import opened Features
  import opened Ranking

  /**
   * `PCA(n_components=5)` and `KMeans(n_clusters=5)` raise an error on
   * fewer samples than this; with no wallet at all an earlier step
   * (`dropna` on a frame without columns, or the scaler on an empty table)
   * raises first, with the same outcome.
   */
  const MinWallets: nat := 5

  /** The full score table and its top and bottom cuts. */
  datatype ScoreTables = ScoreTables(full: seq<ScoreRow>, top: seq<ScoreRow>, bottom: seq<ScoreRow>)

  datatype PipelineError = TooFewWallets(wallets: nat)

  /** The feature table computed from the raw events. */
  function WalletFeatures(raw: seq<RawEvent>): seq<FeatureRow>
  {
    FeatureEngineering(DropNa(NormalizeAll(raw)))
  }

  /** The `wallet` column of the feature table. */
  function WalletColumn(rows: seq<FeatureRow>): (ws: seq<string>)
    ensures |ws| == |rows|
    ensures forall i :: 0 <= i < |rows| ==> ws[i] == rows[i].wallet
  {
    seq(|rows|, i requires 0 <= i < |rows| => rows[i].wallet)
  }

  /** `features[['wallet', 'credit_score']]` once the labels are scored. */
  function ScoreTable(raw: seq<RawEvent>, clusters: seq<int>): (result: seq<ScoreRow>)
    requires |clusters| == |WalletFeatures(raw)|
    requires forall i :: 0 <= i < |clusters| ==> ValidLabel(clusters[i])
    ensures |result| == |clusters|
    ensures forall i :: 0 <= i < |clusters| ==> result[i].creditScore == ScoreOf(clusters[i])
  {
    AttachScores(WalletColumn(WalletFeatures(raw)), clusters)
  }

  /** Some row of a score table is wallet `w`'s. */
  predicate Scored(full: seq<ScoreRow>, w: string)
  {
    exists i :: 0 <= i < |full| && full[i].wallet == w
  }

  /**
   * `generate_scores`: fewer than five wallets is an error; otherwise the
   * full table has one row per wallet of a surviving event, none twice, in
   * ascending wallet order, each scored from its cluster label, and the top
   * and bottom tables are its ten best and ten worst rows.
   */
  method GenerateScores(raw: seq<RawEvent>, clusters: seq<int>)
    returns (out: Result<ScoreTables, PipelineError>)
    requires |clusters| == |WalletFeatures(raw)|
    requires forall i :: 0 <= i < |clusters| ==> ValidLabel(clusters[i])
    ensures out.Failure? <==> |clusters| < MinWallets
    ensures out.Failure? ==> out.error == TooFewWallets(|clusters|)
    ensures out.Success? ==> |out.value.full| == |clusters|
    ensures out.Success? ==> forall i :: 0 <= i < |clusters| ==>
      out.value.full[i].creditScore == ScoreOf(clusters[i])
    ensures out.Success? ==> forall i, j :: 0 <= i < j < |out.value.full| ==>
      Below(out.value.full[i].wallet, out.value.full[j].wallet)
    ensures out.Success? ==> forall w :: Scored(out.value.full, w) <==> Contributes(raw, w)
    ensures out.Success? ==> out.value.top == TopWallets(out.value.full)
    ensures out.Success? ==> out.value.bottom == BottomWallets(out.value.full)
    ensures out.Success? ==> forall r :: r in out.value.full ==> r.creditScore in ScoreTiers
    ensures out.Success? ==> forall r :: r in out.value.top ==> r.creditScore in ScoreTiers
    ensures out.Success? ==> forall r :: r in out.value.bottom ==> r.creditScore in ScoreTiers
  {
    var records := BuildRecords(raw);
    var kept := DropNa(records);
    var features := FeatureEngineering(kept);
    if |features| < MinWallets {
      return Failure(TooFewWallets(|features|));
    }
    var result := AttachScores(WalletColumn(features), clusters);
    assert result == ScoreTable(raw, clusters);
    ScoredWallets(raw, clusters);
    ScoresInTiers(WalletColumn(features), clusters);
    TablesInTiers(result);
    out := Success(ScoreTables(result, TopWallets(result), BottomWallets(result)));
  }

  /**
   * The scored table lists the wallets of the surviving events, each once,
   * in ascending order.
   */
  lemma ScoredWallets(raw: seq<RawEvent>, clusters: seq<int>)
    requires |clusters| == |WalletFeatures(raw)|
    requires forall i :: 0 <= i < |clusters| ==> ValidLabel(clusters[i])
    ensures forall i, j :: 0 <= i < j < |clusters| ==>
      Below(ScoreTable(raw, clusters)[i].wallet, ScoreTable(raw, clusters)[j].wallet)
    ensures forall w :: Scored(ScoreTable(raw, clusters), w) <==> Contributes(raw, w)
  {
    var kept := DropNa(NormalizeAll(raw));
    var features := FeatureEngineering(kept);
    assert WalletFeatures(raw) == features;
    var result := AttachScores(WalletColumn(features), clusters);
    ScoresFollowRows(features, clusters);
    KeptWallets(raw);
    forall w ensures Scored(result, w) <==> Contributes(raw, w) {
      assert Scored(result, w) <==> HasRow(features, w);
      assert HasRow(features, w) <==> HasRecords(kept, w);
    }
  }

  /** Scoring keeps the wallet column of the feature table as it is. */
  lemma ScoresFollowRows(features: seq<FeatureRow>, clusters: seq<int>)
    requires |clusters| == |features|
    requires forall i :: 0 <= i < |clusters| ==> ValidLabel(clusters[i])
    ensures forall i :: 0 <= i < |features| ==>
      AttachScores(WalletColumn(features), clusters)[i].wallet == features[i].wallet
    ensures forall w :: Scored(AttachScores(WalletColumn(features), clusters), w) <==> HasRow(features, w)
  {
  }

  /**
   * Every surviving event is counted in exactly one wallet's `total_txns`:
   * the column adds up to the number of surviving events.
   */
  lemma TotalTxnsCountSurvivors(raw: seq<RawEvent>)
    ensures TotalTxnsSum(WalletFeatures(raw)) == SurvivorCount(raw)
  {
    TableTotals(DropNa(NormalizeAll(raw)));
    KeptCount(raw);
  }

  /**
   * A wallet's group among the kept records holds one record per
   * surviving event of that wallet.
   */
  lemma {:induction false} GroupCountsSurvivors(raw: seq<RawEvent>, w: string)
    ensures |Group(DropNa(NormalizeAll(raw)), w)| == SurvivorsOf(raw, w)
  {
    if raw != [] {
      GroupCountsSurvivors(raw[1..], w);
      var ds := NormalizeAll(raw);
      assert ds[1..] == NormalizeAll(raw[1..]);
      assert HasWalletAndAmount(ds[0]) == Survives(raw[0]);
      var rest := DropNa(ds[1..]);
      if HasWalletAndAmount(ds[0]) {
        var r := ToRecord(ds[0]);
        assert DropNa(ds) == [r] + rest;
        assert ([r] + rest)[1..] == rest;
      }
    }
  }

  /**
   * Each wallet's `total_txns` is the number of its surviving raw events.
   */
  lemma TotalTxnsPerWallet(raw: seq<RawEvent>)
    ensures forall i :: 0 <= i < |WalletFeatures(raw)| ==>
      WalletFeatures(raw)[i].totalTxns == SurvivorsOf(raw, WalletFeatures(raw)[i].wallet)
  {
    var kept := DropNa(NormalizeAll(raw));
    var rows := FeatureEngineering(kept);
    forall i | 0 <= i < |rows| ensures rows[i].totalTxns == SurvivorsOf(raw, rows[i].wallet) {
      RowCounts(rows[i].wallet, Group(kept, rows[i].wallet));
      GroupCountsSurvivors(raw, rows[i].wallet);
    }
  }
}
