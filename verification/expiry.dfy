// Expiry over whole runs ("Expiration times" in memcached's protocol.txt).
//
// The reference below looks only at the commands, their replies and the clock: the last
// command that fixed a deadline decides.  The store agrees with it in every state of a run
// exactly when no TOUCH or GAT hits a live item with an absolute time already past.

module Expiry {
  import opened ByteStrings
  import opened Doubles
  import opened StoreSpec

  /** What the protocol says about one key. */
  datatype Due = Gone | Forever | Until(time: nat)

  function DueOf(exp: nat, now: nat): Due {
    if exp == 0 then Forever else if exp <= 2_592_000 then Until(now + exp) else Until(exp)
  }

  predicate Visible(d: Due, now: nat) { d.Forever? || (d.Until? && now < d.time) }

  /** The effect of one command and its reply. */
  function DueAfter(d: Due, k: Bytes, now: nat, e: Event, r: Reply): Due {
    match e
    case EFlush => Gone
    case EStore(_, k', _, _, _, exp) => if k' == k && r.Done? then DueOf(exp, now) else d
    case ETouch(k', exp) => if k' == k && r.Done? then DueOf(exp, now) else d
    case EGat(k', exp) => if k' == k && r.Hit? then DueOf(exp, now) else d
    case EDelete(k', _) => if k' == k && r.Deleted? then Gone else d
    case ECounter(k', _, _, _, exp) =>
      if k' == k && r.Number? && !Visible(d, now) then DueOf(exp, now) else d
    case _ => d
  }

  function DueInitially(s: State, k: Bytes): Due {
    if k !in s.items then Gone
    else if s.items[k].deadline.None? then Forever
    else Until(s.items[k].deadline.value)
  }

  function DueAt(s: State, es: seq<Event>, i: nat, k: Bytes): Due
    requires i <= |es|
  {
    if i == 0 then DueInitially(s, k)
    else DueAfter(DueAt(s, es, i - 1, k), k, At(s, es, i - 1).now, es[i - 1], ReplyAt(s, es, i - 1))
  }

  /** A TOUCH or GAT of a live item with an absolute time that is not in the future. */
  predicate StaleTouch(s: State, e: Event, k: Bytes) {
    (e.ETouch? || e.EGat?) && e.k == k && k in s.items && Stale(e.exp, s.now)
  }

  predicate AllLive(s: State) { forall k :: k in s.items ==> Before(s.now, s.items[k].deadline) }

  /** The store's deadline for k is the reference's, as long as the item is visible. */
  ghost predicate Agrees(s: State, k: Bytes, d: Due) {
    && (k in s.items <==> Visible(d, s.now))
    && (k in s.items ==> d == DueInitially(s, k))
  }

  lemma StepLive(s: State, e: Event)
    requires AllLive(s)
    ensures AllLive(Step(s, e).s)
  {
  }

  lemma StepAgrees(s: State, e: Event, k: Bytes, d: Due)
    requires AllLive(s) && Agrees(s, k, d) && !StaleTouch(s, e, k)
    ensures Agrees(Step(s, e).s, k, DueAfter(d, k, s.now, e, Step(s, e).r))
  {
    hide LuaText, ToDouble, Arithmetic;
  }

  /** After a stale touch the item is still there, though its time is past. */
  lemma StaleTouchDisagrees(s: State, e: Event, k: Bytes, d: Due)
    requires StaleTouch(s, e, k)
    ensures k in Step(s, e).s.items
    ensures !Visible(DueAfter(d, k, s.now, e, Step(s, e).r), Step(s, e).s.now)
  {
  }

  lemma {:induction false} RunLive(s: State, es: seq<Event>, i: nat)
    requires AllLive(s) && i <= |es|
    ensures AllLive(At(s, es, i))
  {
    if i > 0 {
      RunLive(s, es, i - 1);
      StepLive(At(s, es, i - 1), es[i - 1]);
    }
  }

  /** After the first i steps, k is visible exactly when the reference says so. */
  predicate RightAt(s: State, es: seq<Event>, i: nat, k: Bytes)
    requires i <= |es|
  {
    k in At(s, es, i).items <==> Visible(DueAt(s, es, i, k), At(s, es, i).now)
  }

  predicate StaleAt(s: State, es: seq<Event>, i: nat, k: Bytes)
    requires i < |es|
  {
    StaleTouch(At(s, es, i), es[i], k)
  }

  lemma {:induction false} RunAgrees(s: State, es: seq<Event>, i: nat, k: Bytes)
    requires AllLive(s) && i <= |es|
    requires forall m :: 0 <= m < i ==> !StaleAt(s, es, m, k)
    ensures Agrees(At(s, es, i), k, DueAt(s, es, i, k))
  {
    hide Step, DueAfter;
    if i > 0 {
      RunLive(s, es, i - 1);
      RunAgrees(s, es, i - 1, k);
      assert !StaleAt(s, es, i - 1, k);
      StepAgrees(At(s, es, i - 1), es[i - 1], k, DueAt(s, es, i - 1, k));
    }
  }

  /**
   * Expiry is right in every state of a run exactly when no step of the run is a stale
   * touch of the item.
   */
  lemma ExpiryExactly(s: State, es: seq<Event>, k: Bytes)
    requires AllLive(s)
    ensures (forall i :: 0 <= i <= |es| ==> RightAt(s, es, i, k))
            <==> (forall i :: 0 <= i < |es| ==> !StaleAt(s, es, i, k))
  {
    hide Step, DueAfter;
    if forall i :: 0 <= i < |es| ==> !StaleAt(s, es, i, k) {
      forall i | 0 <= i <= |es| ensures RightAt(s, es, i, k) {
        assert forall m :: 0 <= m < i ==> !StaleAt(s, es, m, k);
        RunAgrees(s, es, i, k);
      }
    } else {
      var m :| 0 <= m < |es| && StaleAt(s, es, m, k);
      StaleTouchDisagrees(At(s, es, m), es[m], k, DueAt(s, es, m, k));
      assert !RightAt(s, es, m + 1, k);
    }
  }

  /** A command that fixes the deadline of k, or removes k. */
  predicate Refixes(s: State, e: Event, k: Bytes) {
    match e
    case EFlush => true
    case EStore(_, k', _, _, _, _) => k' == k && Step(s, e).r.Done?
    case ETouch(k', _) => k' == k && k in s.items
    case EGat(k', _) => k' == k && k in s.items
    case EDelete(k', _) => k' == k && Step(s, e).r.Deleted?
    case ECounter(k', _, _, _, _) => k' == k && k !in s.items
    case _ => false
  }

  /**
   * Between two commands that fix it, the deadline of a live item stands: appends, prepends,
   * arithmetic, reads, refused commands and commands on other keys all preserve it.
   */
  lemma {:induction false} DeadlineStands(s: State, es: seq<Event>, i: nat, j: nat, k: Bytes)
    requires AllLive(s) && i <= j <= |es| && k in At(s, es, i).items
    requires forall m :: i <= m < j ==> !Refixes(At(s, es, m), es[m], k)
    ensures var d := At(s, es, i).items[k].deadline;
      && (k in At(s, es, j).items <==> Before(At(s, es, j).now, d))
      && (k in At(s, es, j).items ==> At(s, es, j).items[k].deadline == d)
  {
    hide Step, Refixes;
    RunLive(s, es, i);
    if i < j {
      DeadlineStands(s, es, i, j - 1, k);
      RunLive(s, es, j - 1);
      DeadlineStep(At(s, es, j - 1), es[j - 1], k);
    }
  }

  lemma DeadlineStep(s: State, e: Event, k: Bytes)
    requires !Refixes(s, e, k)
    ensures s.now <= Step(s, e).s.now
    ensures k !in s.items ==> k !in Step(s, e).s.items
    ensures k in s.items ==>
              var d := s.items[k].deadline;
              && (Before(Step(s, e).s.now, d) && Before(s.now, d) ==> k in Step(s, e).s.items)
              && (k in Step(s, e).s.items ==> Step(s, e).s.items[k].deadline == d)
              && (e.ETick? && !Before(Step(s, e).s.now, d) ==> k !in Step(s, e).s.items)
              && (!e.ETick? ==> Step(s, e).s.now == s.now && k in Step(s, e).s.items)
  {
  }

  /**
   * A touch of a live item keeps its value and flags and gives it the requested life exactly
   * when the time is not stale; a stale one leaves an empty item without a deadline.
   */
  lemma TouchExactly(s: State, k: Bytes, exp: nat)
    requires k in s.items && s.items[k].v.Some?
    ensures var s' := Touch(s, k, exp).s;
      ((k in s'.items <==> Visible(DueOf(exp, s.now), s.now))
       && (k in s'.items ==> s'.items[k].v == s.items[k].v && s'.items[k].f == s.items[k].f))
      <==> !Stale(exp, s.now)
    ensures Stale(exp, s.now) ==>
      Touch(s, k, exp).s.items[k] == Item(None, None, Fresh(s), None)
  {
  }

  /** A concrete stale touch: at time 3000000, `touch k 2592001` revives an empty item. */
  lemma StaleTouchExample(k: Bytes)
    ensures var s := State(map[k := Item(Some([1]), Some(NO_CAS), 1, None)], 1, 3_000_000);
      var s' := Touch(s, k, 2_592_001).s;
      StaleTouch(s, ETouch(k, 2_592_001), k)
      && Get(Tick(s', 1_000_000_000).s, k).r == Hit([], NO_CAS, 2)
  {
  }

  // -------------------------------------------------------------- remaining life

  /**
   * The life that `mg t` reports is what is left of it: after d seconds it is d less, and when
   * it is used up the item is gone.  An item without a deadline never reports one.
   */
  lemma LifeLeft(s: State, k: Bytes, d: nat)
    requires AllLive(s) && k in s.items
    ensures var r, r' := MetaGet(s, k).r, MetaGet(Tick(s, d).s, k).r;
      && r.MetaHit?
      && (match s.items[k].deadline
          case None => r.ttl == None && r' == r
          case Some(t) => r.ttl == Some(t - s.now)
                          && r' == if d < t - s.now then r.(ttl := Some(t - s.now - d)) else Miss)
  {
    hide LuaText;
  }

  /** The life a command grants: relative up to 30 days, else until the absolute time. */
  function LifeOf(exp: nat, now: nat): Option<nat>
    requires !Stale(exp, now)
  {
    if exp == 0 then None else if exp <= 2_592_000 then Some(exp) else Some(exp - now)
  }

  /** Right after a store or a touch that is not stale, the reported life is the granted one. */
  lemma LifeGranted(s: State, k: Bytes, v: Bytes, f: Bytes, exp: nat)
    requires !Stale(exp, s.now)
    ensures MetaGet(Store(s, StoreOp.Set, k, v, f, NO_CAS, exp).s, k).r.ttl == LifeOf(exp, s.now)
    ensures k in s.items ==> MetaGet(Touch(s, k, exp).s, k).r.ttl == LifeOf(exp, s.now)
  {
  }
}
