/**
  The scanner's history: a newest-first list of scan records that `processScan` grows by
  putting the new record in front (`unshift`) and then dropping the last one (`pop`) once
  the list is longer than 100.
 */
module ScanHistory {

  /** The length beyond which `processScan` drops the oldest record. */
  const Capacity: nat := 100

  /** A reading of the clock taken when a scan is recorded: the locale-formatted time, the
      locale-formatted date and time, and milliseconds since the epoch. */
  datatype Clock = Clock(time: string, fullTime: string, ts: int)

  /** One entry of the history, `{code, time, fullTime, ts}`. */
  datatype ScanRecord = ScanRecord(code: string, time: string, fullTime: string, ts: int)

  /** The record `processScan` builds for `code` from its clock reading. */
  function Record(code: string, clock: Clock): ScanRecord {
    ScanRecord(code, clock.time, clock.fullTime, clock.ts)
  }

  /** `unshift(rec)` followed by at most one `pop`. The new record comes first and the old
      records follow in their old order; the last one is dropped when the list was already
      at (or, after a load, past) the capacity. */
  function Push(h: seq<ScanRecord>, rec: ScanRecord): (r: seq<ScanRecord>)
    ensures |r| == if |h| < Capacity then |h| + 1 else |h|
    ensures r[0] == rec
    ensures r[1..] == h[..|r| - 1]
    ensures |h| <= Capacity ==> |r| <= Capacity
  {
    var u := [rec] + h;
    if |u| > Capacity then u[..|u| - 1] else u
  }

  /** A history at capacity loses exactly its oldest record; one below capacity loses
      nothing. */
  lemma PushEvicts(h: seq<ScanRecord>, rec: ScanRecord)
    ensures |h| == Capacity ==> Push(h, rec) == [rec] + h[..Capacity - 1]
    ensures |h| < Capacity ==> Push(h, rec) == [rec] + h
  {
    var r := Push(h, rec);
    assert r == [r[0]] + r[1..];
  }

  /** The history after recording each element of `recs` in turn, first to last. */
  function PushAll(h: seq<ScanRecord>, recs: seq<ScanRecord>): (r: seq<ScanRecord>)
    decreases |recs|
  {
    if recs == [] then h
    else Push(PushAll(h, recs[..|recs| - 1]), recs[|recs| - 1])
  }

  function Reversed<T>(s: seq<T>): (r: seq<T>)
    ensures |r| == |s|
    ensures forall i :: 0 <= i < |s| ==> r[i] == s[|s| - 1 - i]
  {
    if s == [] then [] else [s[|s| - 1]] + Reversed(s[..|s| - 1])
  }

  function Min(a: int, b: int): int {
    if a <= b then a else b
  }

  /** Recording any number of scans into a history within capacity keeps the most recent
      ones, newest first, followed by what was there before, cut to the capacity. So the
      history never grows past 100, and once it is full the scans that fall out are
      exactly the oldest. */
  lemma {:induction false} PushAllKeepsNewest(h: seq<ScanRecord>, recs: seq<ScanRecord>)
    requires |h| <= Capacity
    ensures PushAll(h, recs) == (Reversed(recs) + h)[..Min(|recs| + |h|, Capacity)]
  {
    if recs != [] {
      var init, x := recs[..|recs| - 1], recs[|recs| - 1];
      PushAllKeepsNewest(h, init);
      var p := PushAll(h, init);
      var m := Min(|init| + |h|, Capacity);
      assert p == (Reversed(init) + h)[..m];
      assert Reversed(recs) == [x] + Reversed(init);
      var n := Min(|recs| + |h|, Capacity);
      var r := Push(p, x);
      assert |r| == n;
      forall i | 0 <= i < n ensures r[i] == (Reversed(recs) + h)[i] {
        if i > 0 {
          assert r[i] == r[1..][i - 1] == p[i - 1];
        }
      }
    }
  }
}
