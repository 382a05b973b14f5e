/**
 Which task status a live view holds (`shouldReplaceTaskStatus` and
 `applyLiveRunTaskStatus`): deliveries come from a socket and from reads, in any
 order and any number of times.
 */
module TaskStatus {
  import opened Options

  datatype Status = Status(runId: string, snapshotSeq: int, updatedAt: string, body: string)

  /** JavaScript `a < b` on strings of ISO timestamps. */
  predicate TextLess(a: string, b: string) {
    if b == "" then false
    else if a == "" then true
    else a[0] < b[0] || (a[0] == b[0] && TextLess(a[1..], b[1..]))
  }

  lemma {:induction false} TextLessIrreflexive(a: string)
    ensures !TextLess(a, a)
  {
    if a != "" { TextLessIrreflexive(a[1..]); }
  }

  lemma {:induction false} TextLessTransitive(a: string, b: string, c: string)
    requires TextLess(a, b) && TextLess(b, c)
    ensures TextLess(a, c)
  {
    if a != "" && a[0] == b[0] == c[0] { TextLessTransitive(a[1..], b[1..], c[1..]); }
  }

  lemma {:induction false} TextLessTotal(a: string, b: string)
    ensures TextLess(a, b) || a == b || TextLess(b, a)
  {
    if a != "" && b != "" && a[0] == b[0] {
      TextLessTotal(a[1..], b[1..]);
      assert a == [a[0]] + a[1..] && b == [b[0]] + b[1..];
    }
  }

  /** The lexicographic order on (snapshot_seq, updated_at). */
  predicate Older(a: Status, b: Status) {
    a.snapshotSeq < b.snapshotSeq || (a.snapshotSeq == b.snapshotSeq && TextLess(a.updatedAt, b.updatedAt))
  }

  predicate SameKey(a: Status, b: Status) {
    a.snapshotSeq == b.snapshotSeq && a.updatedAt == b.updatedAt
  }

  lemma OlderIsTotalOrder(a: Status, b: Status, c: Status)
    ensures Older(a, b) || SameKey(a, b) || Older(b, a)
    ensures !Older(a, a)
    ensures Older(a, b) && Older(b, c) ==> Older(a, c)
  {
    TextLessTotal(a.updatedAt, b.updatedAt);
    TextLessIrreflexive(a.updatedAt);
    if TextLess(a.updatedAt, b.updatedAt) && TextLess(b.updatedAt, c.updatedAt) {
      TextLessTransitive(a.updatedAt, b.updatedAt, c.updatedAt);
    }
  }

  predicate ShouldReplace(current: Option<Status>, incoming: Status) {
    if incoming.runId == "" then false
    else if current.None? || current.value.runId != incoming.runId then true
    else if incoming.snapshotSeq != current.value.snapshotSeq then incoming.snapshotSeq > current.value.snapshotSeq
    else TextLess(current.value.updatedAt, incoming.updatedAt)
  }

  function Deliver(active: string, held: Option<Status>, d: Status): Option<Status> {
    if d.runId == active && ShouldReplace(held, d) then Some(d) else held
  }

  function DeliverAll(active: string, held: Option<Status>, ds: seq<Status>): Option<Status> {
    if ds == [] then held
    else Deliver(active, DeliverAll(active, held, ds[..|ds| - 1]), ds[|ds| - 1])
  }

  class StatusView {
    var active: string
    var held: Option<Status>

    method Apply(d: Status) returns (changed: bool)
      modifies this`held
      ensures held == Deliver(active, old(held), d)
      ensures changed <==> d.runId == active && ShouldReplace(old(held), d)
    {
      changed := false;
      if d.runId != active { return; }
      if !ShouldReplace(held, d) { return; }
      held := Some(d);
      changed := true;
    }
  }

  /** `h` has the greatest key among what was held and what was delivered for the run. */
  ghost predicate Greatest(active: string, held: Option<Status>, ds: seq<Status>, h: Option<Status>) {
    && (h.None? ==> held.None? && forall d :: d in ds ==> d.runId != active)
    && (h.Some? ==> h.value.runId == active && (h == held || h.value in ds)
                    && (held.Some? ==> !Older(h.value, held.value))
                    && forall d :: d in ds && d.runId == active ==> !Older(h.value, d))
  }

  lemma {:induction false} HeldIsGreatest(active: string, held: Option<Status>, ds: seq<Status>)
    requires active != "" && (held.Some? ==> held.value.runId == active)
    ensures Greatest(active, held, ds, DeliverAll(active, held, ds))
  {
    if held.Some? { OlderIsTotalOrder(held.value, held.value, held.value); }
    if ds != [] {
      var init, d := ds[..|ds| - 1], ds[|ds| - 1];
      assert ds == init + [d];
      HeldIsGreatest(active, held, init);
      var before := DeliverAll(active, held, init);
      OlderIsTotalOrder(d, d, d);
      if before.Some? && d.runId == active {
        OlderIsTotalOrder(before.value, d, d);
        forall x | x in init && x.runId == active && Older(before.value, d) ensures !Older(d, x) {
          OlderIsTotalOrder(before.value, d, x);
        }
        if held.Some? && Older(before.value, d) { OlderIsTotalOrder(before.value, d, held.value); }
      }
    }
  }

  /** Any order of the same deliveries leaves the same key. */
  lemma OrderIrrelevant(active: string, held: Option<Status>, ds: seq<Status>, es: seq<Status>)
    requires active != "" && (held.Some? ==> held.value.runId == active)
    requires forall d :: d in ds <==> d in es
    ensures var h, k := DeliverAll(active, held, ds), DeliverAll(active, held, es);
            h.Some? == k.Some? && (h.Some? ==> SameKey(h.value, k.value))
  {
    HeldIsGreatest(active, held, ds);
    HeldIsGreatest(active, held, es);
    var h, k := DeliverAll(active, held, ds), DeliverAll(active, held, es);
    if h.Some? && k.Some? { OlderIsTotalOrder(h.value, k.value, k.value); }
  }

  /** A client without an active run takes no status at all. */
  lemma {:induction false} NoRunTakesNone(held: Option<Status>, ds: seq<Status>)
    ensures DeliverAll("", held, ds) == held
  {
    if ds != [] { NoRunTakesNone(held, ds[..|ds| - 1]); }
  }

  lemma {:induction false} DeliverInTwo(active: string, held: Option<Status>, ds: seq<Status>, es: seq<Status>)
    ensures DeliverAll(active, held, ds + es) == DeliverAll(active, DeliverAll(active, held, ds), es)
  {
    if es == [] {
      assert ds + es == ds;
    } else {
      var n := |es| - 1;
      assert (ds + es)[..|ds| + n] == ds + es[..n];
      DeliverInTwo(active, held, ds, es[..n]);
    }
  }

  /** More deliveries never bring an older key back. */
  lemma NeverGoesBack(active: string, held: Option<Status>, ds: seq<Status>, more: seq<Status>)
    requires active != "" && (held.Some? ==> held.value.runId == active)
    requires DeliverAll(active, held, ds).Some?
    ensures DeliverAll(active, held, ds + more).Some?
    ensures !Older(DeliverAll(active, held, ds + more).value, DeliverAll(active, held, ds).value)
  {
    HeldIsGreatest(active, held, ds);
    DeliverInTwo(active, held, ds, more);
    HeldIsGreatest(active, DeliverAll(active, held, ds), more);
  }
}
