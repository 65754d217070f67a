// Whole runs: tokens and compare-and-swap.
//
// A run is any sequence of atomic steps, so it covers every interleaving of every
// connection, including the commands that take two steps (`mg ... T`, and a binary
// DELETE followed by the counter step).

module Runs {
  import opened ByteStrings
  import opened Doubles
  import opened StoreSpec

  /** Live items carry pairwise distinct, nonzero tokens that the counter has passed. */
  ghost predicate TokenInv(s: State) {
    && (forall k :: k in s.items ==> 1 <= s.items[k].cas <= s.counter)
    && (forall j, k :: j in s.items && k in s.items && j != k ==> s.items[j].cas != s.items[k].cas)
  }

  /** The token a step issues, if it is a successful mutation or the counter step. */
  function Issued(e: Event, r: Reply): Option<nat> {
    match r
    case Done(c) => Some(c)
    case Number(_, c) => Some(c)
    case Hit(_, _, c) => if e.EGat? then Some(c) else None
    case _ => None
  }

  /** Something happened to the live item k: mutation, touch, delete, flush or expiry. */
  predicate Changes(s: State, e: Event, k: Bytes) {
    match e
    case EFlush => true
    case ETick(dt) => k in s.items && !Before(s.now + dt, s.items[k].deadline)
    case ENextCas => false
    case EDelete(k', _) => k' == k && Step(s, e).r.Deleted?
    case _ => On(e, k) && Issued(e, Step(s, e).r).Some?
  }

  // ------------------------------------------------------------------ one step

  lemma WriteTokens(s: State, k: Bytes, i: Item)
    requires TokenInv(s) && i.cas == Fresh(s)
    ensures TokenInv(With(s, k, i))
    ensures TokenInv(Without(With(s, k, i), k))
  {
  }

  /** The counter counts the issued tokens, and every step keeps the token invariant. */
  lemma StepTokens(s: State, e: Event)
    requires TokenInv(s)
    ensures TokenInv(Step(s, e).s)
    ensures match Issued(e, Step(s, e).r)
            case Some(c) => c == s.counter + 1 == Step(s, e).s.counter
            case None => Step(s, e).s.counter == s.counter
  {
    hide LuaText, ToDouble, Arithmetic, TokenInv, Deadline, Touched;
    match e
    case EStore(_, k, v, f, _, exp) =>
      WriteTokens(s, k, Item(Some(v), Some(f), Fresh(s), Deadline(exp, s.now)));
    case ECounter(k, delta, decr, init, exp) =>
      WriteTokens(s, k, Item(Some(init), Some(NO_CAS), Fresh(s), Deadline(exp, s.now)));
      if k in s.items && Step(s, e).r.Number? {
        WriteTokens(s, k, s.items[k].(v := Some(Step(s, e).r.text), cas := Fresh(s)));
      }
    case ETouch(k, exp) => RetimeTokens(s, k, exp);
    case EGat(k, exp) => RetimeTokens(s, k, exp);
    case EExtend(k, data, _, prepend) =>
      if k in s.items {
        WriteTokens(s, k, s.items[k].(v := Some(Extended(s.items[k], data, prepend)), cas := Fresh(s)));
      }
    case _ => RemovalTokens(s, e);
  }

  lemma RetimeTokens(s: State, k: Bytes, exp: nat)
    requires TokenInv(s)
    ensures k in s.items ==> TokenInv(With(s, k, Touched(s.items[k], exp, s.now, Fresh(s))))
  {
  }

  lemma RemovalTokens(s: State, e: Event)
    requires TokenInv(s)
    requires e.EGet? || e.EMetaGet? || e.EDelete? || e.EFlush? || e.ENextCas? || e.ETick?
    ensures TokenInv(Step(s, e).s)
  {
  }

  /** A live item is altered by a step exactly when the step is a change of it. */
  lemma ChangesExactly(s: State, e: Event, k: Bytes)
    requires TokenInv(s) && k in s.items
    ensures var s' := Step(s, e).s;
      Changes(s, e, k) <==> (k !in s'.items || s'.items[k] != s.items[k])
  {
    hide LuaText, ToDouble, Arithmetic;
  }

  /** An item whose token is not new is the item that was there before. */
  lemma EntryStable(s: State, e: Event, k: Bytes)
    requires TokenInv(s)
    requires k in Step(s, e).s.items && Step(s, e).s.items[k].cas <= s.counter
    ensures k in s.items && Step(s, e).s.items[k] == s.items[k]
  {
    hide LuaText, ToDouble, Arithmetic;
  }

  // ---------------------------------------------------------------- whole runs

  lemma {:induction false} RunTokens(s: State, es: seq<Event>, i: nat, j: nat)
    requires TokenInv(s) && i <= j <= |es|
    ensures TokenInv(At(s, es, j)) && At(s, es, i).counter <= At(s, es, j).counter
  {
    if i < j {
      RunTokens(s, es, i, j - 1);
      StepTokens(At(s, es, j - 1), es[j - 1]);
    } else if i > 0 {
      RunTokens(s, es, i - 1, j - 1);
      StepTokens(At(s, es, j - 1), es[j - 1]);
    }
  }

  /** From the empty store, the token invariant holds in every reachable state. */
  lemma ReachableTokens(time: nat, es: seq<Event>, i: nat)
    requires i <= |es|
    ensures TokenInv(At(State(map[], 0, time), es, i))
  {
    RunTokens(State(map[], 0, time), es, i, i);
  }

  /**
   * Tokens are issued in strictly increasing order, across every delete, re-creation and
   * flush, and above every token that was live when the run began.
   */
  lemma TokensIncrease(s: State, es: seq<Event>, i: nat, j: nat)
    requires TokenInv(s) && i < j < |es|
    requires Issued(es[i], ReplyAt(s, es, i)).Some? && Issued(es[j], ReplyAt(s, es, j)).Some?
    ensures Issued(es[i], ReplyAt(s, es, i)).value < Issued(es[j], ReplyAt(s, es, j)).value
    ensures forall k :: k in s.items ==> s.items[k].cas < Issued(es[i], ReplyAt(s, es, i)).value
  {
    RunTokens(s, es, 0, i);
    RunTokens(s, es, i + 1, j);
    RunTokens(s, es, 0, j);
    StepTokens(At(s, es, i), es[i]);
    StepTokens(At(s, es, j), es[j]);
  }

  /** Looking back: an item whose token is old has not been touched since. */
  lemma {:induction false} BackTo(s: State, es: seq<Event>, i: nat, j: nat, k: Bytes)
    requires TokenInv(s) && i <= j <= |es|
    requires k in At(s, es, j).items && At(s, es, j).items[k].cas <= At(s, es, i).counter
    ensures k in At(s, es, i).items && At(s, es, i).items[k] == At(s, es, j).items[k]
    ensures forall m :: i <= m <= j ==> k in At(s, es, m).items && At(s, es, m).items[k] == At(s, es, j).items[k]
    ensures forall m :: i <= m < j ==> !Changes(At(s, es, m), es[m], k)
  {
    hide Step, Changes;
    if i < j {
      RunTokens(s, es, 0, j - 1);
      RunTokens(s, es, i, j - 1);
      EntryStable(At(s, es, j - 1), es[j - 1], k);
      ChangesExactly(At(s, es, j - 1), es[j - 1], k);
      BackTo(s, es, i, j - 1, k);
    }
  }

  /** Looking ahead: an item no step changes stays as it is. */
  lemma {:induction false} Unchanged(s: State, es: seq<Event>, i: nat, j: nat, k: Bytes)
    requires TokenInv(s) && i <= j <= |es| && k in At(s, es, i).items
    requires forall m :: i <= m < j ==> !Changes(At(s, es, m), es[m], k)
    ensures k in At(s, es, j).items && At(s, es, j).items[k] == At(s, es, i).items[k]
  {
    hide Step, Changes;
    if i < j {
      Unchanged(s, es, i, j - 1, k);
      RunTokens(s, es, 0, j - 1);
      ChangesExactly(At(s, es, j - 1), es[j - 1], k);
    }
  }

  /** A read of k that returned value v, flags f and token n. */
  predicate Reads(e: Event, r: Reply, k: Bytes, v: Bytes, f: Bytes, n: nat) {
    On(e, k) && match r
                case Hit(v', f', c) => v' == v && f' == f && c == n
                case MetaHit(v', f', c, _) => v' == v && f' == f && c == n
                case _ => false
  }

  /** A store (not ADD), append, prepend or delete on k that presents the token text t. */
  predicate Presents(e: Event, k: Bytes, t: Bytes) {
    match e
    case EStore(op, k', _, _, req, _) => !op.Add? && k' == k && req == t
    case EExtend(k', _, req, _) => k' == k && req == t
    case EDelete(k', req) => k' == k && req == t
    case _ => false
  }

  predicate Succeeds(r: Reply) { r.Done? || r.Deleted? }

  /** Up to 10^14, token texts are not "0" and determine the token. */
  lemma TokenText(a: nat, b: nat)
    requires 1 <= a <= LUA_EXACT && 1 <= b <= LUA_EXACT
    ensures LuaText(a) != NO_CAS
    ensures LuaText(a) == LuaText(b) <==> a == b
  {
    TokensDistinctExactly(LUA_EXACT);
    LuaTextExact(1);
    DecZero(1);
    if a < LUA_EXACT {
      LuaTextExact(a);
      DecZero(a);
    } else {
      SmallExact(a);
      DigitsMono(LUA_EXACT, a);
      ScientificIsNotDecimal(a);
    }
  }

  lemma ReadState(s: State, e: Event, k: Bytes, v: Bytes, f: Bytes, n: nat)
    requires TokenInv(s) && Reads(e, Step(s, e).r, k, v, f, n)
    ensures var s' := Step(s, e).s;
      k in s'.items && s'.items[k].cas == n <= s'.counter
      && Or(s'.items[k].v, []) == v && Or(s'.items[k].f, NO_CAS) == f
  {
  }

  lemma PresentedState(s: State, e: Event, k: Bytes, n: nat)
    requires TokenInv(s) && s.counter <= LUA_EXACT && 1 <= n <= LUA_EXACT
    requires Presents(e, k, LuaText(n))
    ensures Succeeds(Step(s, e).r) <==> k in s.items && s.items[k].cas == n
  {
    hide LuaText, ToDouble, Arithmetic;
    TokenText(n, n);
    if k in s.items { TokenText(s.items[k].cas, n); }
  }

  /**
   * Lost-update freedom.  A read of k returned (v, f, n); later some conditional command,
   * on whatever key, presents n.  It succeeds exactly when that key is k and nothing at
   * all happened to k in between.
   */
  lemma LostUpdateFreedom(s: State, es: seq<Event>, i: nat, j: nat,
                          k: Bytes, k': Bytes, v: Bytes, f: Bytes, n: nat)
    requires TokenInv(s) && i < j < |es|
    requires Reads(es[i], ReplyAt(s, es, i), k, v, f, n)
    requires Presents(es[j], k', LuaText(n))
    requires At(s, es, j).counter <= LUA_EXACT
    ensures Succeeds(ReplyAt(s, es, j)) <==>
            k' == k && forall m :: i < m < j ==> !Changes(At(s, es, m), es[m], k)
    ensures Succeeds(ReplyAt(s, es, j)) ==>
            forall m :: i < m <= j ==>
              k in At(s, es, m).items
              && Or(At(s, es, m).items[k].v, []) == v && Or(At(s, es, m).items[k].f, NO_CAS) == f
  {
    hide Step, Changes, LuaText, TokenInv, At, Reads, Presents, Succeeds;
    UseDecided(s, es, i, j, k, k', v, f, n);
    if Succeeds(ReplyAt(s, es, j)) {
      BackTo(s, es, i + 1, j, k');
    } else if k' == k && forall m :: i < m < j ==> !Changes(At(s, es, m), es[m], k) {
      Unchanged(s, es, i + 1, j, k);
      assert false;
    }
  }

  /** The conditional command succeeds exactly when its key still holds the token. */
  lemma UseDecided(s: State, es: seq<Event>, i: nat, j: nat,
                   k: Bytes, k': Bytes, v: Bytes, f: Bytes, n: nat)
    requires TokenInv(s) && i < j < |es|
    requires Reads(es[i], ReplyAt(s, es, i), k, v, f, n)
    requires Presents(es[j], k', LuaText(n))
    requires At(s, es, j).counter <= LUA_EXACT
    ensures var t, u := At(s, es, i + 1), At(s, es, j);
      && TokenInv(t) && (forall x :: x in t.items && t.items[x].cas == n ==> x == k)
      && k in t.items && t.items[k].cas == n <= t.counter
      && Or(t.items[k].v, []) == v && Or(t.items[k].f, NO_CAS) == f
      && (Succeeds(ReplyAt(s, es, j)) <==> k' in u.items && u.items[k'].cas == n)
  {
    hide Step, LuaText, Reads, Presents, Succeeds;
    RunTokens(s, es, i, i);
    RunTokens(s, es, i + 1, i + 1);
    RunTokens(s, es, i + 1, j);
    ReadState(At(s, es, i), es[i], k, v, f, n);
    PresentedState(At(s, es, j), es[j], k', n);
  }

  /** A token a client was given for k: by a read, or by a successful store, extension or touch. */
  predicate Obtains(e: Event, r: Reply, k: Bytes, n: nat) {
    On(e, k) && (Issued(e, r) == Some(n) || (r.Hit? && r.cas == n) || (r.MetaHit? && r.cas == n))
  }

  /** A token is on the item it was given for, or on none. */
  predicate OnlyOn(s: State, k: Bytes, n: nat) {
    1 <= n <= s.counter && forall x :: x in s.items && s.items[x].cas == n ==> x == k
  }

  lemma ObtainState(s: State, e: Event, k: Bytes, n: nat)
    requires TokenInv(s) && Obtains(e, Step(s, e).r, k, n)
    ensures OnlyOn(Step(s, e).s, k, n)
  {
    hide LuaText, ToDouble, Arithmetic;
  }

  /**
   * The same for every token a client is given, by mutations too: presenting it succeeds
   * exactly when it was left on its item and nothing has happened to that item since.
   */
  lemma TokenFreedom(s: State, es: seq<Event>, i: nat, j: nat, k: Bytes, k': Bytes, n: nat)
    requires TokenInv(s) && i < j < |es|
    requires Obtains(es[i], ReplyAt(s, es, i), k, n) && Presents(es[j], k', LuaText(n))
    requires At(s, es, j).counter <= LUA_EXACT
    ensures var t := At(s, es, i + 1);
      Succeeds(ReplyAt(s, es, j))
      <==> k' == k && k in t.items && t.items[k].cas == n
           && forall m :: i < m < j ==> !Changes(At(s, es, m), es[m], k)
  {
    hide Step, Changes, LuaText, Obtains, Presents, Succeeds, At, TokenInv, OnlyOn;
    ObtainedAfter(s, es, i, k, n);
    UseOf(s, es, i, j, k', n);
    if Succeeds(ReplyAt(s, es, j)) {
      BackTo(s, es, i + 1, j, k');
      HolderIs(At(s, es, i + 1), k, k', n);
    } else if k' == k && k in At(s, es, i + 1).items && At(s, es, i + 1).items[k].cas == n
              && forall m :: i < m < j ==> !Changes(At(s, es, m), es[m], k) {
      Unchanged(s, es, i + 1, j, k);
      assert false;
    }
  }

  lemma ObtainedAfter(s: State, es: seq<Event>, i: nat, k: Bytes, n: nat)
    requires TokenInv(s) && i < |es| && Obtains(es[i], ReplyAt(s, es, i), k, n)
    ensures OnlyOn(At(s, es, i + 1), k, n) && 1 <= n <= At(s, es, i + 1).counter
  {
    hide Step, Obtains;
    RunTokens(s, es, i, i);
    ObtainState(At(s, es, i), es[i], k, n);
  }

  lemma HolderIs(t: State, k: Bytes, k': Bytes, n: nat)
    requires OnlyOn(t, k, n) && k' in t.items && t.items[k'].cas == n
    ensures k' == k
  {
  }

  lemma UseOf(s: State, es: seq<Event>, i: nat, j: nat, k': Bytes, n: nat)
    requires TokenInv(s) && i < j < |es| && 1 <= n <= At(s, es, i + 1).counter
    requires Presents(es[j], k', LuaText(n)) && At(s, es, j).counter <= LUA_EXACT
    ensures var u := At(s, es, j);
      Succeeds(ReplyAt(s, es, j)) <==> k' in u.items && u.items[k'].cas == n
  {
    hide Step, LuaText, Presents, Succeeds;
    RunTokens(s, es, i + 1, j);
    PresentedState(At(s, es, j), es[j], k', n);
  }

  /** The token a loud binary DELETE answers with is on no item and never succeeds. */
  lemma DeleteTokenUseless(s: State, es: seq<Event>, i: nat, j: nat, k: Bytes, n: nat)
    requires TokenInv(s) && i < j < |es| && es[i].ENextCas? && ReplyAt(s, es, i) == Done(n)
    requires Presents(es[j], k, LuaText(n)) && At(s, es, j).counter <= LUA_EXACT
    ensures !Succeeds(ReplyAt(s, es, j))
  {
    hide Step, Changes, LuaText, Presents, Succeeds, At, TokenInv;
    CounterTokenAfter(s, es, i, n);
    UseOf(s, es, i, j, k, n);
    if Succeeds(ReplyAt(s, es, j)) { BackTo(s, es, i + 1, j, k); }
  }

  lemma CounterTokenAfter(s: State, es: seq<Event>, i: nat, n: nat)
    requires TokenInv(s) && i < |es| && es[i].ENextCas? && ReplyAt(s, es, i) == Done(n)
    ensures var t := At(s, es, i + 1);
      1 <= n == t.counter && forall x :: x in t.items ==> t.items[x].cas != n
  {
    RunTokens(s, es, i, i);
  }

  /** A successful use of a token that was read finds its item as it was read. */
  ghost predicate Protected(limit: nat, s: State, es: seq<Event>, i: nat, j: nat,
                            k: Bytes, k': Bytes, v: Bytes, f: Bytes, n: nat) {
    (i < j < |es| && TokenInv(s) && At(s, es, j).counter <= limit
     && Reads(es[i], ReplyAt(s, es, i), k, v, f, n) && Presents(es[j], k', LuaText(n))
     && Succeeds(ReplyAt(s, es, j)))
    ==> k' == k && forall m :: i < m < j ==> !Changes(At(s, es, m), es[m], k)
  }

  /** A lost update at 10^14 + 1: two tokens of one key print alike, so a stale one is accepted. */
  lemma LostUpdateExample() returns (s: State, es: seq<Event>, k: Bytes)
    ensures var v, n := Ascii("a"), LUA_EXACT;
      && |es| == 4 && TokenInv(s) && At(s, es, 3).counter == LUA_EXACT + 1
      && Reads(es[1], ReplyAt(s, es, 1), k, v, NO_CAS, n) && Presents(es[3], k, LuaText(n))
      && Succeeds(ReplyAt(s, es, 3)) && Changes(At(s, es, 2), es[2], k)
  {
    hide LuaText;
    k := Ascii("rc:k");
    var a, b := Ascii("a"), Ascii("b");
    s := State(map[], LUA_EXACT - 1, 0);
    es := [EStore(StoreOp.Set, k, a, NO_CAS, NO_CAS, 0), EGet(k), EStore(StoreOp.Set, k, b, NO_CAS, NO_CAS, 0),
           EStore(StoreOp.Set, k, a, NO_CAS, LuaText(LUA_EXACT), 0)];
    FirstCollision();
    var s1, s2, s3 := At(s, es, 1), At(s, es, 2), At(s, es, 3);
    assert At(s, es, 0) == s;
    assert s1 == Step(s, es[0]).s && s1.items[k] == Item(Some(a), Some(NO_CAS), LUA_EXACT, None);
    assert s2 == Step(s1, es[1]).s == s1;
    assert s3 == Step(s2, es[2]).s && s3.items[k].cas == LUA_EXACT + 1;
  }

  /** Compare-and-swap protects every read exactly as long as the counter is at most 10^14. */
  lemma LostUpdateFreedomExactly(limit: nat)
    ensures (forall s: State, es: seq<Event>, i: nat, j: nat, k: Bytes, k': Bytes, v: Bytes, f: Bytes, n: nat ::
               Protected(limit, s, es, i, j, k, k', v, f, n))
            <==> limit <= LUA_EXACT
  {
    hide At, Reads, Presents, Succeeds, Changes, TokenInv, LuaText;
    if limit <= LUA_EXACT {
      forall s: State, es: seq<Event>, i: nat, j: nat, k: Bytes, k': Bytes, v: Bytes, f: Bytes, n: nat
        ensures Protected(limit, s, es, i, j, k, k', v, f, n)
      {
        if i < j < |es| && TokenInv(s) && At(s, es, j).counter <= limit
           && Reads(es[i], ReplyAt(s, es, i), k, v, f, n) && Presents(es[j], k', LuaText(n)) {
          LostUpdateFreedom(s, es, i, j, k, k', v, f, n);
        }
      }
    } else {
      var s, es, k := LostUpdateExample();
      assert !Protected(limit, s, es, 1, 3, k, k, Ascii("a"), NO_CAS, LUA_EXACT);
    }
  }

  /** A flush retires every token read before it: no later command can use one. */
  lemma FlushRetiresTokens(s: State, es: seq<Event>, i: nat, m: nat, j: nat,
                           k: Bytes, k': Bytes, v: Bytes, f: Bytes, n: nat)
    requires TokenInv(s) && i < m < j < |es| && es[m].EFlush?
    requires Reads(es[i], ReplyAt(s, es, i), k, v, f, n)
    requires Presents(es[j], k', LuaText(n))
    requires At(s, es, j).counter <= LUA_EXACT
    ensures !Succeeds(ReplyAt(s, es, j))
  {
    LostUpdateFreedom(s, es, i, j, k, k', v, f, n);
    assert Changes(At(s, es, m), es[m], k);
  }
}
