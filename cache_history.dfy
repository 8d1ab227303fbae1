/**
 * Properties of the yield cache over a sequence of lookups made one after
 * another.
 */
module CacheHistory {
  import opened Wrappers
  import opened YieldCache

  /** One `getFromCache` call, with the two clock readings it makes. */
  datatype Call<V> = Call(prefix: string, configID: string, checkTime: int, storeTime: int,
                          generate: () -> Option<V>)

  function Step<V>(table: Table<V>, c: Call<V>): (o: Outcome<V>)
  {
    Lookup(table, c.prefix, c.configID, c.checkTime, c.storeTime, c.generate)
  }

  /** The table after the calls have run in order. */
  function Replay<V>(table: Table<V>, calls: seq<Call<V>>): (final: Table<V>)
    decreases |calls|
  {
    if calls == [] then table else Replay(Step(table, calls[0]).table, calls[1..])
  }

  /**
   * The clock did not step back by more than two hours between the staleness
   * test and the store of the same call.
   */
  predicate StoreNotBeforeWindow<V>(c: Call<V>)
  {
    c.checkTime - StaleAfterMs <= c.storeTime
  }

  /**
   * Call `i` found slot `k` missing or stale, ran its producer, and stored the
   * truthy result as `e`, stamped with its store time.
   */
  ghost predicate WrittenBy<V>(table: Table<V>, calls: seq<Call<V>>, i: int, k: string, e: Entry<V>)
  {
    0 <= i < |calls| &&
    Step(Replay(table, calls[..i]), calls[i]).invoked &&
    CacheKey(calls[i].prefix, calls[i].configID) == k &&
    calls[i].generate() == Some(e.data) && calls[i].storeTime == e.lastUpdate
  }

  /**
   * One call keeps every slot and never lowers a stamp: it overwrites a slot
   * only when the slot's stamp is below `checkTime - StaleAfterMs`.
   */
  lemma StepMonotone<V>(table: Table<V>, c: Call<V>)
    requires StoreNotBeforeWindow(c)
    ensures var after := Step(table, c).table;
            table.Keys <= after.Keys &&
            forall k :: k in table ==> table[k].lastUpdate <= after[k].lastUpdate
  {
  }

  /**
   * Over any sequence of calls, slots are never deleted and a slot's
   * `lastUpdate` never decreases. No ordering between calls is needed.
   */
  lemma {:induction false} ReplayMonotone<V>(table: Table<V>, calls: seq<Call<V>>)
    requires forall i :: 0 <= i < |calls| ==> StoreNotBeforeWindow(calls[i])
    ensures var final := Replay(table, calls);
            table.Keys <= final.Keys &&
            forall k :: k in table ==> table[k].lastUpdate <= final[k].lastUpdate
    decreases |calls|
  {
    if calls != [] {
      StepMonotone(table, calls[0]);
      assert forall i :: 0 <= i < |calls| - 1 ==> calls[1..][i] == calls[i + 1];
      ReplayMonotone(Step(table, calls[0]).table, calls[1..]);
    }
  }

  /** Key isolation over a history: calls on other keys leave slot `k` as it was. */
  lemma {:induction false} ReplayIsolation<V>(table: Table<V>, calls: seq<Call<V>>, k: string)
    requires forall i :: 0 <= i < |calls| ==> CacheKey(calls[i].prefix, calls[i].configID) != k
    ensures var final := Replay(table, calls);
            (k in final <==> k in table) && (k in table ==> final[k] == table[k])
    decreases |calls|
  {
    if calls != [] {
      assert forall i :: 0 <= i < |calls| - 1 ==> calls[1..][i] == calls[i + 1];
      ReplayIsolation(Step(table, calls[0]).table, calls[1..], k);
    }
  }

  /** Running the first call and then the next `j` is running the first `j + 1`. */
  lemma ReplayPrefix<V>(table: Table<V>, calls: seq<Call<V>>, j: nat)
    requires j < |calls|
    ensures Replay(table, calls[..j + 1]) == Replay(Step(table, calls[0]).table, calls[1..][..j])
  {
    assert calls[..j + 1][0] == calls[0];
    assert calls[..j + 1][1..] == calls[1..][..j];
  }

  /**
   * Write only on success: every slot after the calls either is untouched
   * from the start or holds a truthy result that one of the calls produced
   * after finding the slot missing or stale, stamped with that call's store
   * time.
   */
  lemma {:induction false} ReplayProvenance<V>(table: Table<V>, calls: seq<Call<V>>)
    ensures var final := Replay(table, calls);
            forall k :: k in final ==>
              (k in table && final[k] == table[k]) ||
              exists i :: WrittenBy(table, calls, i, k, final[k])
    decreases |calls|
  {
    if calls != [] {
      var mid := Step(table, calls[0]).table;
      ReplayProvenance(mid, calls[1..]);
      var final := Replay(table, calls);
      forall k | k in final
        ensures (k in table && final[k] == table[k]) || exists i :: WrittenBy(table, calls, i, k, final[k])
      {
        if k in mid && final[k] == mid[k] {
          if !(k in table && mid[k] == table[k]) {
            assert calls[..0] == [];
            assert WrittenBy(table, calls, 0, k, final[k]);
          }
        } else {
          var j :| WrittenBy(mid, calls[1..], j, k, final[k]);
          ReplayPrefix(table, calls, j);
          assert WrittenBy(table, calls, j + 1, k, final[k]);
        }
      }
    }
  }

  /**
   * Fail soft is retried: after a falsy producer result the slot still needs
   * a refresh at every later clock reading, so the next call runs its producer.
   */
  lemma FailureIsRetried<V>(table: Table<V>, c: Call<V>, later: int)
    requires NeedsRefresh(table, CacheKey(c.prefix, c.configID), c.checkTime)
    requires c.generate() == None && c.checkTime <= later
    ensures NeedsRefresh(Step(table, c).table, CacheKey(c.prefix, c.configID), later)
  {
  }
}
