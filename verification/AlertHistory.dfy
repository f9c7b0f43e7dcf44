/** Duplicate suppression: which alerts the shared history lets through.

    Time stamps are whole seconds, as `mktime` yields them. Both servers' handlers
    call `check_update_history` under one lock, so that a run is one sequence of calls.
 */
module AlertHistory {
  import opened Common

  const WINDOW: int := 900  // 15 minutes

  datatype HistoryItem = HistoryItem(identifier: string, eventType: string, timestamp: int, language: string)

  predicate BasicallySame(a: HistoryItem, b: HistoryItem) {
    if a.language != b.language then false
    else if a.identifier == b.identifier then true
    else if a.eventType != b.eventType then false
    else if Abs(a.timestamp - b.timestamp) > WINDOW then false
    else true
  }

  predicate Seen(history: seq<HistoryItem>, item: HistoryItem) {
    exists i :: 0 <= i < |history| && BasicallySame(item, history[i])
  }

  /** The history after one call. */
  function Admit(history: seq<HistoryItem>, item: HistoryItem): seq<HistoryItem> {
    if Seen(history, item) then history else history + [item]
  }

  /** The history after any sequence of calls, from both servers. */
  function Run(items: seq<HistoryItem>): seq<HistoryItem> {
    if items == [] then [] else Admit(Run(items[..|items| - 1]), items[|items| - 1])
  }

  class AlertLog {
    var history: seq<HistoryItem>

    constructor ()
      ensures history == []
    {
      history := [];
    }

    /** Scans from the most recent entry; true means the alert was handled before. */
    method CheckUpdateHistory(item: HistoryItem) returns (seen: bool)
      modifies this
      ensures seen == Seen(old(history), item)
      ensures history == Admit(old(history), item)
    {
      for i := |history| downto 0
        invariant history == old(history)
        invariant forall k :: i <= k < |history| ==> !BasicallySame(item, history[k])
      {
        if BasicallySame(item, history[i]) {
          return true;
        }
      }
      history := history + [item];
      return false;
    }
  }

  // -------------------------------------------------------------- the relation

  lemma SameIsSymmetric(a: HistoryItem, b: HistoryItem)
    ensures BasicallySame(a, b) == BasicallySame(b, a) && BasicallySame(a, a)
  {
  }

  /** Two alerts are the same exactly for one of two reasons, within one language. */
  lemma SameMeans(a: HistoryItem, b: HistoryItem)
    ensures BasicallySame(a, b) <==>
      a.language == b.language &&
      (a.identifier == b.identifier || (a.eventType == b.eventType && -900 <= a.timestamp - b.timestamp <= 900))
  {
  }

  /** It is no equivalence: a chain of alerts 15 minutes apart links different ones. */
  lemma SameIsNotTransitive(a: HistoryItem, b: HistoryItem, c: HistoryItem)
    requires a == HistoryItem("1", "flood", 0, "en-US")
    requires b == HistoryItem("2", "flood", 900, "en-US")
    requires c == HistoryItem("3", "flood", 1800, "en-US")
    ensures BasicallySame(a, b) && BasicallySame(b, c) && !BasicallySame(a, c)
  {
    assert "1"[0] != "2"[0] && "2"[0] != "3"[0] && "1"[0] != "3"[0];
  }

  // ------------------------------------------------------------------ whole runs

  predicate Independent(history: seq<HistoryItem>) {
    forall i, j :: 0 <= i < j < |history| ==> !BasicallySame(history[i], history[j])
  }

  /** No two admitted alerts are basically the same. */
  lemma {:induction false} RunIndependent(items: seq<HistoryItem>)
    ensures Independent(Run(items))
  {
    if items != [] {
      var before, item := Run(items[..|items| - 1]), items[|items| - 1];
      RunIndependent(items[..|items| - 1]);
      forall i, j | 0 <= i < j < |Run(items)| ensures !BasicallySame(Run(items)[i], Run(items)[j]) {
        if j == |before| { SameIsSymmetric(before[i], item); }
      }
    }
  }

  /** Exactly when every alert is let through: when no two of them are basically the same. */
  lemma {:induction false} AllAdmittedIff(items: seq<HistoryItem>)
    ensures Run(items) == items <==> Independent(items)
  {
    RunIndependent(items);
    if items != [] && Independent(items) {
      var before, item := items[..|items| - 1], items[|items| - 1];
      AllAdmittedIff(before);
      forall i | 0 <= i < |before| ensures !BasicallySame(item, before[i]) {
        assert !BasicallySame(items[i], items[|items| - 1]);
        SameIsSymmetric(before[i], item);
      }
    }
  }

  lemma {:induction false} RunGrows(items: seq<HistoryItem>, n: nat)
    requires n <= |items|
    ensures Run(items[..n]) <= Run(items)
  {
    if n == |items| {
      assert items[..n] == items;
    } else {
      RunGrows(items[..|items| - 1], n);
      assert items[..|items| - 1][..n] == items[..n];
    }
  }

  lemma AdmitSees(history: seq<HistoryItem>, item: HistoryItem)
    ensures Seen(Admit(history, item), item)
  {
    if !Seen(history, item) {
      SameIsSymmetric(item, item);
      assert Admit(history, item)[|history|] == item;
    }
  }

  lemma SeenLater(history: seq<HistoryItem>, longer: seq<HistoryItem>, item: HistoryItem)
    requires history <= longer && Seen(history, item)
    ensures Seen(longer, item)
  {
    var i :| 0 <= i < |history| && BasicallySame(item, history[i]);
    assert longer[i] == history[i];
  }

  /** Every submitted alert is basically the same as one admitted by then - itself
      or an earlier one - so the admitted set cannot be enlarged. */
  lemma RunMaximal(items: seq<HistoryItem>, k: nat)
    requires k < |items|
    ensures Seen(Run(items[..k + 1]), items[k]) && Seen(Run(items), items[k])
  {
    var upTo := items[..k + 1];
    assert upTo[..|upTo| - 1] == items[..k];
    AdmitSees(Run(items[..k]), items[k]);
    RunGrows(items, k + 1);
    SeenLater(Run(upTo), Run(items), items[k]);
  }

  /** Only submitted alerts are admitted. */
  lemma {:induction false} RunFromItems(items: seq<HistoryItem>)
    ensures forall i :: 0 <= i < |Run(items)| ==> Run(items)[i] in items
  {
    if items != [] {
      RunFromItems(items[..|items| - 1]);
    }
  }

  /** Within a language each identifier is admitted at most once, and two alerts
      for the same event are admitted only more than 15 minutes apart. */
  lemma {:induction false} AdmittedApart(items: seq<HistoryItem>, i: nat, j: nat)
    requires i < j < |Run(items)| && Run(items)[i].language == Run(items)[j].language
    ensures Run(items)[i].identifier != Run(items)[j].identifier
    ensures Run(items)[i].eventType == Run(items)[j].eventType ==>
      Abs(Run(items)[i].timestamp - Run(items)[j].timestamp) > 900
  {
    RunIndependent(items);
    SameMeans(Run(items)[i], Run(items)[j]);
  }

  /** Which of two alerts are handled: the second one is dropped for the same identifier,
      or for the same event within 900 seconds before or after, in one language. */
  lemma TwoAlerts(a: HistoryItem, b: HistoryItem)
    ensures Run([a, b]) ==
      if a.language == b.language &&
         (a.identifier == b.identifier || (a.eventType == b.eventType && -900 <= a.timestamp - b.timestamp <= 900))
      then [a] else [a, b]
  {
    assert [a, b][..1] == [a] && [a][..0] == [];
    assert Run([a]) == [a];
    SameMeans(b, a);
    assert Seen([a], b) <==> BasicallySame(b, [a][0]);
  }

  function InLanguage(items: seq<HistoryItem>, l: string): seq<HistoryItem> {
    if items == [] then [] else
    InLanguage(items[..|items| - 1], l) + (if items[|items| - 1].language == l then [items[|items| - 1]] else [])
  }

  lemma {:induction false} SeenInLanguage(history: seq<HistoryItem>, item: HistoryItem)
    ensures Seen(InLanguage(history, item.language), item) <==> Seen(history, item)
  {
    if history != [] {
      var before, last := history[..|history| - 1], history[|history| - 1];
      SeenInLanguage(before, item);
      SeenSnoc(before, last, item);
      assert history == before + [last];
      if last.language == item.language {
        SeenSnoc(InLanguage(before, item.language), last, item);
      } else {
        SameMeans(item, last);
        assert InLanguage(history, item.language) == InLanguage(before, item.language);
      }
    }
  }

  lemma SeenSnoc(history: seq<HistoryItem>, last: HistoryItem, item: HistoryItem)
    ensures Seen(history + [last], item) <==> Seen(history, item) || BasicallySame(item, last)
  {
    var longer := history + [last];
    assert longer[|history|] == last;
    if i :| 0 <= i < |history| && BasicallySame(item, history[i]) { assert longer[i] == history[i]; }
  }

  lemma InLanguageSnoc(items: seq<HistoryItem>, last: HistoryItem, l: string)
    ensures InLanguage(items + [last], l) == InLanguage(items, l) + (if last.language == l then [last] else [])
  {
    assert (items + [last])[..|items|] == items;
  }

  /** The languages of an alert do not interfere: what is admitted in one language is
      what would be admitted if only that language were sent. */
  lemma {:induction false} LanguagesApart(items: seq<HistoryItem>, l: string)
    ensures InLanguage(Run(items), l) == Run(InLanguage(items, l))
  {
    if items != [] {
      var before, item := items[..|items| - 1], items[|items| - 1];
      LanguagesApart(before, l);
      var kept := InLanguage(before, l);
      InLanguageSnoc(Run(before), item, l);
      if item.language == l {
        SeenInLanguage(Run(before), item);
        assert InLanguage(items, l) == kept + [item] && (kept + [item])[..|kept|] == kept;
      } else {
        assert InLanguage(items, l) == kept;
        assert InLanguage(Run(before) + [item], l) == InLanguage(Run(before), l);
      }
    }
  }

  // ---------------------------------------------------------------- the rate

  /** The time stamps of the admitted alerts of one kind within [lo, hi]. */
  function TimesOf(history: seq<HistoryItem>, language: string, event: string, lo: int, hi: int): seq<int> {
    if history == [] then [] else
    var h := history[|history| - 1];
    TimesOf(history[..|history| - 1], language, event, lo, hi) +
    (if h.language == language && h.eventType == event && lo <= h.timestamp <= hi then [h.timestamp] else [])
  }

  predicate Spread(ts: seq<int>) {
    forall i, j :: 0 <= i < j < |ts| ==> Abs(ts[i] - ts[j]) > WINDOW
  }

  predicate HasAlert(history: seq<HistoryItem>, language: string, event: string, t: int) {
    exists k :: 0 <= k < |history| && history[k].language == language && history[k].eventType == event && history[k].timestamp == t
  }

  lemma {:induction false} TimesAreAlerts(history: seq<HistoryItem>, language: string, event: string, lo: int, hi: int)
    ensures forall t :: t in TimesOf(history, language, event, lo, hi) ==> lo <= t <= hi && HasAlert(history, language, event, t)
  {
    if history != [] {
      var n := |history| - 1;
      TimesAreAlerts(history[..n], language, event, lo, hi);
      forall t | t in TimesOf(history, language, event, lo, hi) ensures lo <= t <= hi && HasAlert(history, language, event, t) {
        if t in TimesOf(history[..n], language, event, lo, hi) {
          var k :| 0 <= k < n && history[..n][k].language == language && history[..n][k].eventType == event && history[..n][k].timestamp == t;
          assert history[k].timestamp == t;
        } else {
          assert history[n].timestamp == t;
        }
      }
    }
  }

  lemma {:induction false} TimesSpread(history: seq<HistoryItem>, language: string, event: string, lo: int, hi: int)
    requires Independent(history)
    ensures Spread(TimesOf(history, language, event, lo, hi))
  {
    if history != [] {
      var n := |history| - 1;
      TimesSpread(history[..n], language, event, lo, hi);
      TimesAreAlerts(history[..n], language, event, lo, hi);
      var before := TimesOf(history[..n], language, event, lo, hi);
      var ts := TimesOf(history, language, event, lo, hi);
      forall i, j | 0 <= i < j < |ts| ensures Abs(ts[i] - ts[j]) > WINDOW {
        if j == |before| {
          assert before[i] in before;
          var k :| 0 <= k < n && history[..n][k].language == language && history[..n][k].eventType == event && history[..n][k].timestamp == before[i];
          assert !BasicallySame(history[k], history[n]);
        }
      }
    }
  }

  function LatestIndex(ts: seq<int>): (k: nat)
    requires ts != []
    ensures k < |ts| && forall i :: 0 <= i < |ts| ==> ts[i] <= ts[k]
  {
    if |ts| == 1 then 0 else
    var k := LatestIndex(ts[..|ts| - 1]);
    assert forall i :: 0 <= i < |ts| - 1 ==> ts[i] == ts[..|ts| - 1][i];
    if ts[|ts| - 1] > ts[k] then |ts| - 1 else k
  }

  /** Instants more than WINDOW apart, within a stretch of w seconds. */
  lemma {:induction false} Packing(ts: seq<int>, lo: int, w: nat)
    requires Spread(ts) && forall i :: 0 <= i < |ts| ==> lo <= ts[i] <= lo + w
    ensures |ts| <= w / (WINDOW + 1) + 1
    decreases |ts|
  {
    if |ts| > 1 {
      var k := LatestIndex(ts);
      var rest := ts[..k] + ts[k + 1..];
      var hi := ts[k] - (WINDOW + 1);
      forall i | 0 <= i < |rest| ensures lo <= rest[i] <= hi {
        if i < k { assert rest[i] == ts[i]; } else { assert rest[i] == ts[i + 1]; }
      }
      assert rest[0] >= lo;
      forall i, j | 0 <= i < j < |rest| ensures Abs(rest[i] - rest[j]) > WINDOW {
        assert rest[i] == ts[if i < k then i else i + 1] && rest[j] == ts[if j < k then j else j + 1];
      }
      Packing(rest, lo, hi - lo);
      assert (hi - lo) / (WINDOW + 1) + 1 <= w / (WINDOW + 1);
    }
  }

  /** However many alerts the servers send, any stretch of w whole seconds admits
      at most w/901 + 1 alerts for one event in one language. */
  lemma RateBound(items: seq<HistoryItem>, language: string, event: string, lo: int, w: nat)
    ensures |TimesOf(Run(items), language, event, lo, lo + w)| <= w / 901 + 1
  {
    RunIndependent(items);
    TimesSpread(Run(items), language, event, lo, lo + w);
    TimesAreAlerts(Run(items), language, event, lo, lo + w);
    var ts := TimesOf(Run(items), language, event, lo, lo + w);
    assert forall i :: 0 <= i < |ts| ==> ts[i] in ts;
    Packing(ts, lo, w);
  }

  /** The order of arrival decides how much is admitted: the same three alerts, two or one. */
  lemma OrderMatters(a: HistoryItem, b: HistoryItem, c: HistoryItem)
    requires BasicallySame(a, b) && BasicallySame(b, c) && !BasicallySame(a, c)
    ensures Run([a, b, c]) == [a, c] && Run([b, a, c]) == [b]
  {
    SameIsSymmetric(a, b);
    SameIsSymmetric(b, c);
    SameIsSymmetric(a, c);
    RunThree(a, b, c);
    RunThree(b, a, c);
    assert BasicallySame(b, [a][0]) && !Seen([a], c);
    assert BasicallySame(a, [b][0]) && BasicallySame(c, [b][0]);
  }

  lemma RunThree(a: HistoryItem, b: HistoryItem, c: HistoryItem)
    ensures Run([a, b, c]) == Admit(Admit([a], b), c)
  {
    assert [a, b, c][..2] == [a, b] && [a, b][..1] == [a] && [a][..0] == [];
    assert Run([a]) == [a];
    assert Run([a, b]) == Admit([a], b);
  }
}
