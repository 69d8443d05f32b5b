/** The "recently disconnected, now reconnected" bookkeeping of the options
    column: a set of client names (`previous_disconnections`) that a check
    against the active-session map reports from and clears, and that every
    disconnection scan adds to. */
module Reconcile {
  import opened Seqs
  import opened Classifier

  /** One entry of the active-session map. The map's key is `name`; the other
      fields are only displayed. */
  datatype ActiveClient = ActiveClient(name: string, ip: string, uptime: string, callerId: string, service: string)

  /** The names of the active map, in its iteration order. */
  function Names(active: seq<ActiveClient>): (names: seq<string>)
    ensures |names| == |active|
    ensures forall k :: 0 <= k < |active| ==> names[k] == active[k].name
  {
    seq(|active|, k requires 0 <= k < |active| => active[k].name)
  }

  /** The active map is a dictionary: no name occurs twice. */
  predicate DistinctNames(active: seq<ActiveClient>)
  {
    forall k, k' :: 0 <= k < k' < |active| ==> active[k].name != active[k'].name
  }

  /** The loop over the active map: the active names that are also in
      `previous`, in the map's order. */
  function Reconnected(active: seq<ActiveClient>, previous: set<string>): (r: seq<string>)
    ensures forall x :: x in r <==> x in previous && x in Names(active)
    ensures IsSubsequence(r, Names(active))
  {
    if active == [] then []
    else
      assert Names(active)[1..] == Names(active[1..]);
      var rest := Reconnected(active[1..], previous);
      if active[0].name in previous then [active[0].name] + rest else rest
  }

  /** The two properties above pin the report down: for a map without repeated
      names, any in-order selection of its names that holds exactly the names
      in `previous` is the report. */
  lemma {:induction false} ReconnectedUnique(active: seq<ActiveClient>, previous: set<string>, r: seq<string>)
    requires DistinctNames(active)
    requires IsSubsequence(r, Names(active))
    requires forall x :: x in r <==> x in previous && x in Names(active)
    ensures r == Reconnected(active, previous)
    decreases |active|
  {
    var names := Names(active);
    if active != [] {
      var tail := active[1..];
      var n0 := active[0].name;
      assert names[1..] == Names(tail);
      assert n0 !in Names(tail);
      if n0 in previous {
        assert n0 in r;
        if r[0] != n0 {
          SubsequenceMembers(r, names[1..], n0);
        }
        forall x ensures x in r[1..] <==> x in previous && x in Names(tail) {
          if x in r[1..] && x == n0 {
            SubsequenceMembers(r[1..], names[1..], x);
          }
          if x != n0 && x in r {
            assert x == r[0] || x in r[1..];
          }
        }
        ReconnectedUnique(tail, previous, r[1..]);
        assert r == [r[0]] + r[1..];
      } else if r != [] {
        assert r[0] != n0;
        ReconnectedUnique(tail, previous, r);
      } else {
        ReconnectedUnique(tail, previous, r);
      }
    }
  }

  /** What a press of "view active clients" produces: the names to report and
      the set kept afterwards. */
  datatype CheckResult = CheckResult(reconnected: seq<string>, previous: set<string>)

  /** A check against the active map. With an empty map (nothing fetched)
      nothing is reported and the set is kept; otherwise the reconnected
      names are reported and the set is cleared. */
  function Check(active: seq<ActiveClient>, previous: set<string>): (r: CheckResult)
    ensures active == [] ==> r.reconnected == [] && r.previous == previous
    ensures active != [] ==> r.previous == {}
    ensures forall x :: x in r.reconnected <==> active != [] && x in previous && x in Names(active)
    ensures IsSubsequence(r.reconnected, Names(active))
  {
    if active == [] then CheckResult([], previous)
    else CheckResult(Reconnected(active, previous), {})
  }

  /** Recording a scan: the names of its records join the set. */
  function Record(previous: set<string>, scan: seq<Disconnection>): (r: set<string>)
    ensures forall x :: x in r <==> x in previous || exists k :: 0 <= k < |scan| && scan[k].nombre == x
  {
    previous + set d | d in scan :: d.nombre
  }

  /** Recording two scans one after the other records their concatenation. */
  lemma RecordAccumulates(previous: set<string>, a: seq<Disconnection>, b: seq<Disconnection>)
    ensures Record(Record(previous, a), b) == Record(previous, a + b)
  {
    forall x ensures x in Record(Record(previous, a), b) <==> x in Record(previous, a + b) {
      if exists k :: 0 <= k < |a + b| && (a + b)[k].nombre == x {
        var k :| 0 <= k < |a + b| && (a + b)[k].nombre == x;
        if k >= |a| {
          assert b[k - |a|].nombre == x;
        }
      }
      if exists k :: 0 <= k < |b| && b[k].nombre == x {
        var k :| 0 <= k < |b| && b[k].nombre == x;
        assert (a + b)[|a| + k].nombre == x;
      }
    }
  }

  /** One rerun of the options column: the check when its button was pressed
      (with the active map fetched then), followed by the scan of the latest
      disconnections. */
  function Rerun(previous: set<string>, pressed: bool, active: seq<ActiveClient>, scan: seq<Disconnection>): (r: CheckResult)
    ensures pressed ==> && (forall x :: x in r.reconnected <==> active != [] && x in previous && x in Names(active))
                        && IsSubsequence(r.reconnected, Names(active))
    ensures pressed && active != [] ==> forall x :: x in r.previous <==> exists k :: 0 <= k < |scan| && scan[k].nombre == x
    ensures pressed && active == [] ==> r.reconnected == [] && r.previous == Record(previous, scan)
    ensures !pressed ==> r.reconnected == [] && r.previous == Record(previous, scan)
  {
    var c := if pressed then Check(active, previous) else CheckResult([], previous);
    CheckResult(c.reconnected, Record(c.previous, scan))
  }

  /** A client recorded by a scan and active at the next check is reported then. */
  lemma ReportedAfterScan(previous: set<string>, scan: seq<Disconnection>, active: seq<ActiveClient>, k: nat, a: nat)
    requires k < |scan| && a < |active| && scan[k].nombre == active[a].name
    ensures scan[k].nombre in Check(active, Record(previous, scan)).reconnected
  {
    assert Names(active)[a] == active[a].name;
  }

  /** A check that follows a check of a non-empty map, with no scan in
      between, reports nothing: the first check emptied the set. */
  lemma ReportedOnce(previous: set<string>, active1: seq<ActiveClient>, active2: seq<ActiveClient>)
    requires active1 != []
    ensures Check(active2, Check(active1, previous).previous).reconnected == []
  {
    HeadIsMember(Check(active2, Check(active1, previous).previous).reconnected);
  }

  /** Two pressed reruns in a row, both with a non-empty map: the second
      reports exactly its active names that the first rerun's scan recorded.
      Whatever the set held before the first check no longer matters, but a
      name that the scan finds again is reported again. */
  lemma PressedTwice(previous: set<string>, active1: seq<ActiveClient>, scan1: seq<Disconnection>,
                     active2: seq<ActiveClient>, scan2: seq<Disconnection>)
    requires active1 != [] && active2 != []
    ensures var second := Rerun(Rerun(previous, true, active1, scan1).previous, true, active2, scan2);
            forall x :: x in second.reconnected <==> x in Names(active2) && exists k :: 0 <= k < |scan1| && scan1[k].nombre == x
  {
  }

  lemma HeadIsMember<T>(s: seq<T>)
    ensures s != [] ==> s[0] in s
  {
  }
}
