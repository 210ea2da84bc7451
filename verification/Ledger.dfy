/** The insert-once receipt ledger, and its contents as a function of the history of offered receipts. */
module Ledger {
  import opened Common

  /** A receipt as the ledger sees it: its key and everything else it states. */
  datatype Receipt<K, E> = Receipt(key: K, evidence: E)

  datatype RecordResult = Recorded | AlreadyRecorded | Conflict

  function RecordIn<K, E(==)>(m: map<K, Receipt<K, E>>, r: Receipt<K, E>): (map<K, Receipt<K, E>>, RecordResult) {
    if r.key !in m then (m[r.key := r], Recorded)
    else if m[r.key] == r then (m, AlreadyRecorded)
    else (m, Conflict)
  }

  class DeliveryReceiptLedger<K(==), E(==)> {
    var receipts: map<K, Receipt<K, E>>

    constructor ()
      ensures receipts == map[]
    {
      receipts := map[];
    }

    method Record(receipt: Receipt<K, E>) returns (result: RecordResult)
      modifies this
      ensures (receipts, result) == RecordIn(old(receipts), receipt)
    {
      if receipt.key !in receipts {
        receipts := receipts[receipt.key := receipt];
        return Recorded;
      }
      result := if receipts[receipt.key] == receipt then AlreadyRecorded else Conflict;
    }

    method Get(key: K) returns (receipt: Option<Receipt<K, E>>)
      ensures receipt == if key in receipts then Some(receipts[key]) else None
    {
      receipt := if key in receipts then Some(receipts[key]) else None;
    }
  }

  /** The ledger after recording a history, receipt by receipt, on top of an earlier ledger. */
  function After<K, E(==)>(m: map<K, Receipt<K, E>>, history: seq<Receipt<K, E>>): map<K, Receipt<K, E>>
    decreases |history|
  {
    if history == [] then m else After(RecordIn(m, history[0]).0, history[1..])
  }

  function Results<K, E(==)>(m: map<K, Receipt<K, E>>, history: seq<Receipt<K, E>>): (results: seq<RecordResult>)
    ensures |results| == |history|
    decreases |history|
  {
    if history == [] then [] else [RecordIn(m, history[0]).1] + Results(RecordIn(m, history[0]).0, history[1..])
  }

  /** The first receipt of the history with this key. */
  function First<K(==), E>(history: seq<Receipt<K, E>>, key: K): Option<Receipt<K, E>> {
    if history == [] then None
    else if history[0].key == key then Some(history[0])
    else First(history[1..], key)
  }

  /** The ledger keeps, for each key, what it had or else the first receipt offered: nothing is ever overwritten. */
  lemma {:induction false} LedgerKeepsFirst<K, E>(m: map<K, Receipt<K, E>>, history: seq<Receipt<K, E>>, key: K)
    ensures key in m ==> key in After(m, history) && After(m, history)[key] == m[key]
    ensures key !in m ==>
      match First(history, key)
      case None => key !in After(m, history)
      case Some(r) => key in After(m, history) && After(m, history)[key] == r
    decreases |history|
  {
    if history != [] {
      LedgerKeepsFirst(RecordIn(m, history[0]).0, history[1..], key);
    }
  }

  lemma {:induction false} FirstOccurs<K, E>(history: seq<Receipt<K, E>>, key: K)
    ensures First(history, key).Some? ==> First(history, key).value in history && First(history, key).value.key == key
    ensures First(history, key).None? ==> forall r :: r in history ==> r.key != key
  {
    if history != [] {
      FirstOccurs(history[1..], key);
      assert history == [history[0]] + history[1..];
    }
  }

  /** From the empty ledger: the map from each offered key to the first receipt offered for it. */
  lemma LedgerIsFirstOffered<K, E>(history: seq<Receipt<K, E>>, key: K)
    ensures key in After(map[], history) <==> exists r :: r in history && r.key == key
    ensures key in After(map[], history) ==> Some(After(map[], history)[key]) == First(history, key)
  {
    LedgerKeepsFirst(map[], history, key);
    FirstOccurs(history, key);
  }

  function CountRecorded(results: seq<RecordResult>): nat {
    if results == [] then 0 else (if results[0].Recorded? then 1 else 0) + CountRecorded(results[1..])
  }

  /** The number of Recorded results is the number of entries added. */
  lemma {:induction false} RecordedIsSize<K, E>(m: map<K, Receipt<K, E>>, history: seq<Receipt<K, E>>)
    ensures |After(m, history)| == |m| + CountRecorded(Results(m, history))
    decreases |history|
  {
    if history != [] {
      var next := RecordIn(m, history[0]).0;
      RecordedIsSize(next, history[1..]);
      if history[0].key !in m {
        assert next.Keys == m.Keys + {history[0].key};
      }
    }
  }

  /** A receipt is refused exactly when a different receipt with its key came first. */
  lemma ConflictExactly<K, E>(history: seq<Receipt<K, E>>, r: Receipt<K, E>)
    ensures RecordIn(After(map[], history), r).1.Conflict?
       <==> First(history, r.key).Some? && First(history, r.key).value != r
    ensures RecordIn(After(map[], history), r).1.Recorded? <==> forall s :: s in history ==> s.key != r.key
  {
    LedgerIsFirstOffered(history, r.key);
    FirstOccurs(history, r.key);
  }

  lemma {:induction false} KnownKeysChangeNothing<K, E>(m: map<K, Receipt<K, E>>, history: seq<Receipt<K, E>>)
    requires forall r :: r in history ==> r.key in m
    ensures After(m, history) == m
    decreases |history|
  {
    if history != [] {
      assert history[0] in history && forall r :: r in history[1..] ==> r in history;
      KnownKeysChangeNothing(m, history[1..]);
    }
  }

  /** Replaying a history, or any receipts drawn from it, changes nothing. */
  lemma ReplayChangesNothing<K, E>(history: seq<Receipt<K, E>>, replay: seq<Receipt<K, E>>)
    requires forall r :: r in replay ==> r in history
    ensures After(After(map[], history), replay) == After(map[], history)
  {
    forall r | r in replay
      ensures r.key in After(map[], history)
    {
      LedgerIsFirstOffered(history, r.key);
    }
    KnownKeysChangeNothing(After(map[], history), replay);
  }

  /** No two receipts of the history disagree about a key. */
  predicate ConflictFree<K(==), E(==)>(history: seq<Receipt<K, E>>) {
    forall r, s :: r in history && s in history && r.key == s.key ==> r == s
  }

  /** Histories with the same receipts, in any order and any number of times, give the same ledger when free of conflicts. */
  lemma OrderAndDuplicatesDoNotMatter<K, E>(history: seq<Receipt<K, E>>, history': seq<Receipt<K, E>>)
    requires ConflictFree(history)
    requires forall r :: r in history <==> r in history'
    ensures After(map[], history') == After(map[], history)
  {
    var m, m' := After(map[], history), After(map[], history');
    forall key: K | key in m.Keys + m'.Keys
      ensures key in m && key in m' && m[key] == m'[key]
    {
      LedgerIsFirstOffered(history, key);
      LedgerIsFirstOffered(history', key);
      FirstOccurs(history, key);
      FirstOccurs(history', key);
    }
    assert m == m';
  }

  /** And only then: a history with a conflict has a reordering with another ledger. */
  lemma ConflictsMakeOrderMatter<K, E>(history: seq<Receipt<K, E>>)
    ensures ConflictFree(history) <==>
      forall history' :: multiset(history') == multiset(history) ==> After(map[], history') == After(map[], history)
  {
    if ConflictFree(history) {
      forall history' | multiset(history') == multiset(history)
        ensures After(map[], history') == After(map[], history)
      {
        assert forall r :: r in history' <==> r in multiset(history');
        assert forall r :: r in history <==> r in multiset(history);
        OrderAndDuplicatesDoNotMatter(history, history');
      }
    } else {
      var r, s :| r in history && s in history && r.key == s.key && r != s;
      var byR := MovedToFront(history, r);
      var byS := MovedToFront(history, s);
      LedgerIsFirstOffered(byR, r.key);
      LedgerIsFirstOffered(byS, r.key);
      assert After(map[], byR)[r.key] == r && After(map[], byS)[r.key] == s;
    }
  }

  lemma MovedToFront<K, E>(history: seq<Receipt<K, E>>, r: Receipt<K, E>) returns (moved: seq<Receipt<K, E>>)
    requires r in history
    ensures multiset(moved) == multiset(history)
    ensures moved != [] && moved[0] == r && First(moved, r.key) == Some(r)
    ensures r in moved
  {
    var i :| 0 <= i < |history| && history[i] == r;
    moved := [r] + history[..i] + history[i + 1..];
    assert history == history[..i] + [r] + history[i + 1..];
  }
}
