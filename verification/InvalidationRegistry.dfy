/** The per-key invalidation registry of the package cache (internal/cache/invalidation_state.go).

    The state of one key is a value with its own transition functions; the registry keeps a map of
    them.  Every method states the whole new registry through those functions.  What the callers
    hold, one token per write or invalidation that has begun and not ended, is a ghost field. */
module InvalidationRegistry {
  import opened Wrappers

  const MAX_RETAINED := 4096

  datatype KeyState = KeyState(
    generation: nat,
    writers: int,
    invalidations: int,
    tombstoned: bool,
    cleanupSafe: bool,
    retained: bool)
  {
    predicate Idle() {
      writers == 0 && invalidations == 0
    }
  }

  const FRESH := KeyState(0, 0, 0, false, false, false)

  // ---------------------------------------------------------------- one key

  function StateOf(entry: Option<KeyState>): KeyState {
    if entry.Some? then entry.value else FRESH
  }

  function BeginWriteOn(entry: Option<KeyState>): KeyState {
    var s := StateOf(entry);
    s.(retained := false, writers := s.writers + 1)
  }

  function BeginInvalidationOn(entry: Option<KeyState>): KeyState {
    var s := StateOf(entry);
    s.(retained := false, generation := s.generation + 1, invalidations := s.invalidations + 1,
       tombstoned := true, cleanupSafe := false)
  }

  function CommitOn(s: KeyState): KeyState {
    s.(tombstoned := false, cleanupSafe := true, writers := s.writers - 1)
  }

  function AbortOn(s: KeyState): KeyState {
    s.(writers := s.writers - 1)
  }

  function CleanupSafeOn(s: KeyState): KeyState {
    s.(cleanupSafe := true)
  }

  function FinishOn(s: KeyState, generation: nat, cleanupSafe: bool): KeyState {
    var marked := if s.generation == generation && s.tombstoned && cleanupSafe then s.(cleanupSafe := true) else s;
    marked.(invalidations := s.invalidations - 1)
  }

  /** What is left of a state nobody uses any more: nothing, or a retained tombstone. */
  function Settle(s: KeyState, failClosed: bool): Option<KeyState> {
    if !s.Idle() then Some(s)
    else if (s.tombstoned && s.cleanupSafe) || !s.tombstoned || failClosed then None
    else Some(s.(retained := true))
  }

  // ---------------------------------------------------------------- the registry as a value

  type States = map<string, KeyState>

  function Lookup(states: States, key: string): Option<KeyState> {
    if key in states then Some(states[key]) else None
  }

  function Store(states: States, key: string, entry: Option<KeyState>): States {
    if entry.Some? then states[key := entry.value] else states - {key}
  }

  function RetainedKeys(states: States): set<string> {
    set key | key in states && states[key].retained
  }

  /** What is left once the registry has failed closed: the states somebody still uses. */
  function DropIdle(states: States): States {
    map key | key in states && !states[key].Idle() :: states[key]
  }

  /** Settling a key stores what is left of it and fails closed when that retains too many. */
  function SettledStates(states: States, key: string, s: KeyState, failClosed: bool): States {
    var stored := Store(states, key, Settle(s, failClosed));
    if |RetainedKeys(stored)| > MAX_RETAINED then DropIdle(stored) else stored
  }

  function SettledFailClosed(states: States, key: string, s: KeyState, failClosed: bool): bool {
    failClosed || |RetainedKeys(Store(states, key, Settle(s, failClosed)))| > MAX_RETAINED
  }

  // ---------------------------------------------------------------- tokens

  /** What callers still hold on one key: the generations of writes and invalidations under way. */
  datatype Tokens = Tokens(writes: multiset<nat>, invalidations: multiset<nat>)

  const NO_TOKENS := Tokens(multiset{}, multiset{})

  function Held(tokens: map<string, Tokens>, key: string): Tokens {
    if key in tokens then tokens[key] else NO_TOKENS
  }

  /** A state counts exactly the tokens that are out and is at least as new as each of them. */
  ghost predicate Counts(s: KeyState, held: Tokens) {
    && s.writers == |held.writes|
    && s.invalidations == |held.invalidations|
    && (forall g | g in held.writes :: g <= s.generation)
    && (forall g | g in held.invalidations :: g <= s.generation)
  }

  /** A state nobody uses is kept only as a retained tombstone whose cleanup is not known safe. */
  ghost predicate Accounts(s: KeyState, held: Tokens) {
    Counts(s, held) &&
    (s.retained <==> s.Idle()) && (s.Idle() ==> s.tombstoned && !s.cleanupSafe)
  }

  /** The state of a key accounts for its tokens; a key without a state has none out. */
  ghost predicate KeyConsistent(states: States, tokens: map<string, Tokens>, key: string) {
    if key in states then Accounts(states[key], Held(tokens, key)) else Held(tokens, key) == NO_TOKENS
  }

  ghost predicate AllConsistent(states: States, tokens: map<string, Tokens>) {
    forall key :: KeyConsistent(states, tokens, key)
  }

  ghost predicate Consistent(states: States, retained: int, failClosed: bool, tokens: map<string, Tokens>) {
    && AllConsistent(states, tokens)
    && retained == |RetainedKeys(states)|
    && retained <= MAX_RETAINED
    && (failClosed ==> retained == 0)
  }

  lemma AddWrite(entry: Option<KeyState>, held: Tokens)
    requires if entry.Some? then Accounts(entry.value, held) else held == NO_TOKENS
    ensures var g := StateOf(entry).generation;
            Accounts(BeginWriteOn(entry), held.(writes := held.writes + multiset{g}))
  {
  }

  lemma AddInvalidation(entry: Option<KeyState>, held: Tokens)
    requires if entry.Some? then Accounts(entry.value, held) else held == NO_TOKENS
    ensures var g := StateOf(entry).generation + 1;
            Accounts(BeginInvalidationOn(entry), held.(invalidations := held.invalidations + multiset{g}))
  {
  }

  lemma EndWrite(s: KeyState, held: Tokens, g: nat)
    requires Counts(s, held) && g in held.writes
    ensures !s.Idle() && Counts(AbortOn(s), held.(writes := held.writes - multiset{g}))
  {
  }

  lemma EndInvalidation(s: KeyState, held: Tokens, g: nat)
    requires Counts(s, held) && g in held.invalidations
    ensures !s.Idle()
    ensures Counts(s.(invalidations := s.invalidations - 1), held.(invalidations := held.invalidations - multiset{g}))
  {
  }

  /** Changing one key keeps the registry consistent when the key and the counter are right. */
  lemma UpdateKey(states: States, retained: int, failClosed: bool, tokens: map<string, Tokens>,
                  key: string, entry: Option<KeyState>, held: Tokens)
    requires Consistent(states, retained, failClosed, tokens)
    requires if entry.Some? then Accounts(entry.value, held) else held == NO_TOKENS
    ensures var next := Store(states, key, entry);
            var count := retained - (if key in states && states[key].retained then 1 else 0)
                                  + (if entry.Some? && entry.value.retained then 1 else 0);
            count == |RetainedKeys(next)| && (failClosed ==> count <= 0 || (entry.Some? && entry.value.retained)) &&
            AllConsistent(next, tokens[key := held])
  {
    StoreRetained(states, key, entry);
    var next, left := Store(states, key, entry), tokens[key := held];
    forall other
      ensures KeyConsistent(next, left, other)
    {
      assert KeyConsistent(states, tokens, other);
    }
    if failClosed && key in states && states[key].retained {
      assert key in RetainedKeys(states);
    }
  }

  /** A state that somebody joins is in use, and no longer retained. */
  lemma Joins(states: States, retained: int, failClosed: bool, tokens: map<string, Tokens>,
              key: string, s: KeyState, held: Tokens)
    requires Consistent(states, retained, failClosed, tokens) && Accounts(s, held) && !s.retained
    ensures Consistent(states[key := s], if StateOf(Lookup(states, key)).retained then retained - 1 else retained,
                       failClosed, tokens[key := held])
  {
    UpdateKey(states, retained, failClosed, tokens, key, Some(s), held);
  }

  /** Failing closed keeps the states that are in use. */
  lemma FailClosed(states: States, tokens: map<string, Tokens>)
    requires AllConsistent(states, tokens)
    ensures Consistent(DropIdle(states), 0, true, tokens)
  {
    forall key
      ensures KeyConsistent(DropIdle(states), tokens, key)
      ensures key in DropIdle(states) ==> !states[key].retained
    {
      assert KeyConsistent(states, tokens, key);
    }
    assert RetainedKeys(DropIdle(states)) == {};
  }

  lemma StoreRetained(states: States, key: string, entry: Option<KeyState>)
    ensures var wasRetained := key in states && states[key].retained;
            var isRetained := entry.Some? && entry.value.retained;
            |RetainedKeys(Store(states, key, entry))|
              == |RetainedKeys(states)| - (if wasRetained then 1 else 0) + (if isRetained then 1 else 0)
  {
    var before, after := RetainedKeys(states), RetainedKeys(Store(states, key, entry));
    assert after - {key} == before - {key};
    assert key in before ==> |before - {key}| == |before| - 1;
    assert key in after ==> |after - {key}| == |after| - 1;
  }

  // ---------------------------------------------------------------- what settling drops

  /** A state that settling leaves alone unless somebody may forget it. */
  function Dropped(entry: Option<KeyState>): Option<KeyState> {
    if entry.Some? && entry.value.Idle() then None else entry
  }

  /** Seen from any one key, settling a key settles that key, leaves every other key alone, and
      forgets idle states only by failing closed. */
  lemma SettledSeenFromAKey(states: States, key: string, s: KeyState, failClosed: bool, seen: string)
    ensures var stored := if seen == key then Settle(s, failClosed) else Lookup(states, seen);
            var overflow := |RetainedKeys(Store(states, key, Settle(s, failClosed)))| > MAX_RETAINED;
            Lookup(SettledStates(states, key, s, failClosed), seen) == (if overflow then Dropped(stored) else stored) &&
            SettledFailClosed(states, key, s, failClosed) == (failClosed || overflow)
  {
  }

  /** What settling a key in use comes to.  A state still in use is stored; one nobody uses any more goes,
      unless it is a tombstone not known to be safe, which is retained as long as there is room. */
  lemma SettlingOutcome(states: States, retained: int, failClosed: bool, tokens: map<string, Tokens>,
                        key: string, s: KeyState, held: Tokens)
    requires Consistent(states, retained, failClosed, tokens)
    requires key in states && !states[key].Idle() && !s.retained && Counts(s, held)
    ensures var left, closed := SettledStates(states, key, s, failClosed), SettledFailClosed(states, key, s, failClosed);
            (held != NO_TOKENS ==> left == states[key := s] && closed == failClosed) &&
            (held == NO_TOKENS && (!s.tombstoned || s.cleanupSafe || failClosed) ==>
               left == states - {key} && closed == failClosed) &&
            (held == NO_TOKENS && s.tombstoned && !s.cleanupSafe && !failClosed ==>
               if retained < MAX_RETAINED then left == states[key := s.(retained := true)] && !closed
               else closed && key !in left)
  {
    assert KeyConsistent(states, tokens, key);
    assert s.Idle() <==> held == NO_TOKENS;
    StoreRetained(states, key, Settle(s, failClosed));
  }

  /** A tombstone is given up only when its cleanup was safe, or when nothing is readable any more. */
  lemma TombstonesAreKept(states: States, key: string, s: KeyState, failClosed: bool, seen: string)
    requires var entry := if seen == key then Some(s) else Lookup(states, seen);
             entry.Some? && entry.value.tombstoned && (entry.value.cleanupSafe ==> seen != key)
    requires !SettledFailClosed(states, key, s, failClosed)
    ensures var left := SettledStates(states, key, s, failClosed);
            seen in left && left[seen].tombstoned
  {
    SettledSeenFromAKey(states, key, s, failClosed, seen);
  }

  predicate ReadableIn(states: States, failClosed: bool, key: string) {
    !failClosed && (key in states ==> !states[key].tombstoned)
  }

  /** What settling makes readable: the settled key if its tombstone has been lifted, or if its last user
      leaves and its cleanup was safe; every other key is what it was; and nothing once the registry has
      failed closed. */
  lemma ReadableAfterSettling(states: States, key: string, s: KeyState, failClosed: bool, seen: string)
    ensures var left, closed := SettledStates(states, key, s, failClosed), SettledFailClosed(states, key, s, failClosed);
            ReadableIn(left, closed, seen) <==>
              !closed && (if seen == key then !s.tombstoned || (s.Idle() && s.cleanupSafe) else ReadableIn(states, failClosed, seen))
  {
    SettledSeenFromAKey(states, key, s, failClosed, seen);
  }

  /** A key with a token out has a state that no settling of any key, itself included, removes or turns
      back: a stale write never becomes current again.  s and held are the new state and the remaining
      tokens of the settled key. */
  lemma NoGenerationReuse(states: States, tokens: map<string, Tokens>, key: string, s: KeyState, held: Tokens, failClosed: bool,
                          seen: string, generation: nat)
    requires AllConsistent(states, tokens) && Counts(s, held)
    requires var out := if seen == key then held else Held(tokens, seen);
             generation in out.writes + out.invalidations
    ensures var left := SettledStates(states, key, s, failClosed);
            seen in left && generation <= left[seen].generation &&
            (if seen == key then left[seen] == s else seen in states && left[seen] == states[seen])
  {
    assert KeyConsistent(states, tokens, seen);
    SettledSeenFromAKey(states, key, s, failClosed, seen);
    var out := if seen == key then held else Held(tokens, seen);
    assert generation in out.writes ==> |out.writes| > 0;
    assert generation in out.invalidations ==> |out.invalidations| > 0;
  }

  class Registry {
    var states: States
    var retained: int
    var failClosed: bool
    ghost var tokens: map<string, Tokens>

    ghost predicate Valid()
      reads this
    {
      Consistent(states, retained, failClosed, tokens)
    }

    /** The tokens of one key, and the registry after settling a changed state of it. */
    ghost function HeldOn(key: string): Tokens
      reads this
    {
      Held(tokens, key)
    }

    constructor ()
      ensures Valid() && states == map[] && !failClosed && tokens == map[]
    {
      states, retained, failClosed, tokens := map[], 0, false, map[];
    }

    /** beginWrite: the write joins the state of its key, which it creates when there is none. */
    method BeginWrite(key: string) returns (generation: nat)
      requires Valid()
      modifies this
      ensures Valid() && failClosed == old(failClosed)
      ensures states == old(states)[key := BeginWriteOn(Lookup(old(states), key))]
      ensures generation == StateOf(Lookup(old(states), key)).generation
      ensures tokens == old(tokens)[key := old(HeldOn(key)).(writes := old(HeldOn(key)).writes + multiset{generation})]
    {
      ghost var held := HeldOn(key).(writes := HeldOn(key).writes + multiset{StateOf(Lookup(states, key)).generation});
      Joins(states, retained, failClosed, tokens, key, BeginWriteOn(Lookup(states, key)), held) by {
        assert KeyConsistent(states, tokens, key);
        AddWrite(Lookup(states, key), HeldOn(key));
      }
      var s := if key in states then states[key] else FRESH;
      retained := if s.retained then retained - 1 else retained;
      s := s.(retained := false, writers := s.writers + 1);
      assert s == BeginWriteOn(Lookup(states, key));
      states := states[key := s];
      tokens := tokens[key := held];
      generation := s.generation;
    }

    /** writeCurrent */
    method WriteCurrent(key: string, generation: nat) returns (current: bool)
      ensures current <==> key in states && states[key].generation == generation
    {
      current := key in states && states[key].generation == generation;
    }

    /** commitWrite: only a write of the current generation lifts the tombstone and commits. */
    method CommitWrite(key: string, generation: nat) returns (committed: bool)
      requires Valid() && generation in HeldOn(key).writes
      modifies this
      ensures Valid() && key in old(states)
      ensures committed <==> old(states)[key].generation == generation
      ensures !committed ==> states == old(states) && failClosed == old(failClosed) && tokens == old(tokens)
      ensures committed ==>
                states == SettledStates(old(states), key, CommitOn(old(states)[key]), old(failClosed)) &&
                failClosed == SettledFailClosed(old(states), key, CommitOn(old(states)[key]), old(failClosed)) &&
                failClosed == old(failClosed) &&
                (if HeldOn(key) == NO_TOKENS then states == old(states) - {key}
                 else key in states && !states[key].tombstoned && states[key].generation == generation) &&
                tokens == old(tokens)[key := old(HeldOn(key)).(writes := old(HeldOn(key)).writes - multiset{generation})]
    {
      assert KeyConsistent(states, tokens, key);
      EndWrite(states[key], HeldOn(key), generation);
      var s := states[key];
      if s.generation != generation {
        return false;
      }
      s := s.(tombstoned := false, cleanupSafe := true, writers := s.writers - 1);
      SettlingOutcome(states, retained, failClosed, tokens, key, s,
                      HeldOn(key).(writes := HeldOn(key).writes - multiset{generation}));
      SettleIdle(key, s, HeldOn(key).(writes := HeldOn(key).writes - multiset{generation}));
      committed := true;
    }

    /** abortWrite: the tombstone of the key goes with its last user if its cleanup was safe. */
    method AbortWrite(key: string, ghost generation: nat)
      requires Valid() && generation in HeldOn(key).writes
      modifies this
      ensures Valid() && key in old(states)
      ensures states == SettledStates(old(states), key, AbortOn(old(states)[key]), old(failClosed))
      ensures failClosed == SettledFailClosed(old(states), key, AbortOn(old(states)[key]), old(failClosed))
      ensures var was := old(states)[key];
              var gone := HeldOn(key) == NO_TOKENS && (!was.tombstoned || was.cleanupSafe);
              (!failClosed && (key in states ==> !states[key].tombstoned) <==> !failClosed && (gone || !was.tombstoned)) &&
              (gone ==> states == old(states) - {key} && failClosed == old(failClosed)) &&
              (HeldOn(key) != NO_TOKENS ==>
                 states == old(states)[key := was.(writers := was.writers - 1)] && failClosed == old(failClosed))
      ensures tokens == old(tokens)[key := old(HeldOn(key)).(writes := old(HeldOn(key)).writes - multiset{generation})]
    {
      assert KeyConsistent(states, tokens, key);
      EndWrite(states[key], HeldOn(key), generation);
      var s := states[key];
      s := s.(writers := s.writers - 1);
      SettlingOutcome(states, retained, failClosed, tokens, key, s,
                      HeldOn(key).(writes := HeldOn(key).writes - multiset{generation}));
      SettleIdle(key, s, HeldOn(key).(writes := HeldOn(key).writes - multiset{generation}));
    }

    /** markCleanupSafe, called by a writer that still holds its token. */
    method MarkCleanupSafe(key: string, ghost generation: nat)
      requires Valid() && generation in HeldOn(key).writes
      modifies this
      ensures Valid() && key in old(states)
      ensures states == old(states)[key := CleanupSafeOn(old(states)[key])]
      ensures states == old(states)[key := old(states)[key].(cleanupSafe := true)]
      ensures failClosed == old(failClosed) && tokens == old(tokens)
    {
      assert KeyConsistent(states, tokens, key);
      EndWrite(states[key], HeldOn(key), generation);
      var s := states[key];
      s := s.(cleanupSafe := true);
      StoreRetained(states, key, Some(s));
      SettleIdle(key, s, HeldOn(key));
      assert tokens[key := HeldOn(key)] == tokens;
    }

    /** beginInvalidation: a new generation, a tombstone, and no cleanup known to be safe. */
    method BeginInvalidation(key: string) returns (generation: nat)
      requires Valid()
      modifies this
      ensures Valid() && failClosed == old(failClosed)
      ensures states == old(states)[key := BeginInvalidationOn(Lookup(old(states), key))]
      ensures generation == states[key].generation
      ensures states[key].tombstoned && !states[key].cleanupSafe
      ensures key in old(states) ==> generation == old(states)[key].generation + 1
      ensures tokens == old(tokens)[key := old(HeldOn(key)).(invalidations := old(HeldOn(key)).invalidations + multiset{generation})]
    {
      ghost var held := HeldOn(key).(invalidations := HeldOn(key).invalidations + multiset{StateOf(Lookup(states, key)).generation + 1});
      Joins(states, retained, failClosed, tokens, key, BeginInvalidationOn(Lookup(states, key)), held) by {
        assert KeyConsistent(states, tokens, key);
        AddInvalidation(Lookup(states, key), HeldOn(key));
      }
      var s := if key in states then states[key] else FRESH;
      retained := if s.retained then retained - 1 else retained;
      s := s.(retained := false, generation := s.generation + 1, invalidations := s.invalidations + 1,
              tombstoned := true, cleanupSafe := false);
      assert s == BeginInvalidationOn(Lookup(states, key));
      states := states[key := s];
      tokens := tokens[key := held];
      generation := s.generation;
    }

    /** invalidationPending */
    method InvalidationPending(key: string, generation: nat) returns (pending: bool)
      ensures pending <==> key in states && states[key].generation == generation && states[key].tombstoned
    {
      pending := key in states && states[key].generation == generation && states[key].tombstoned;
    }

    /** finishInvalidation: a safe cleanup counts only for the generation it cleaned up.  The last user of
        the key takes its tombstone along if some cleanup was safe, and otherwise leaves it behind; while
        others use the key the tombstone stays. */
    method FinishInvalidation(key: string, generation: nat, cleanupSafe: bool)
      requires Valid() && generation in HeldOn(key).invalidations
      modifies this
      ensures Valid() && key in old(states)
      ensures states == SettledStates(old(states), key, FinishOn(old(states)[key], generation, cleanupSafe), old(failClosed))
      ensures failClosed == SettledFailClosed(old(states), key, FinishOn(old(states)[key], generation, cleanupSafe), old(failClosed))
      ensures var was := old(states)[key];
              var safe := was.cleanupSafe || (cleanupSafe && was.tombstoned && was.generation == generation);
              var last := HeldOn(key) == NO_TOKENS;
              (!failClosed && (key in states ==> !states[key].tombstoned) <==> !failClosed && (!was.tombstoned || (last && safe))) &&
              (last && (safe || !was.tombstoned) ==> states == old(states) - {key} && failClosed == old(failClosed)) &&
              (last && !safe && was.tombstoned && !old(failClosed) ==>
                 if old(retained) < MAX_RETAINED then
                   !failClosed && states == old(states)[key := was.(invalidations := 0, retained := true)]
                 else failClosed) &&
              (!last ==>
                 states == old(states)[key := was.(invalidations := was.invalidations - 1, cleanupSafe := safe)] &&
                 failClosed == old(failClosed))
      ensures tokens == old(tokens)[key := old(HeldOn(key)).(invalidations := old(HeldOn(key)).invalidations - multiset{generation})]
    {
      assert KeyConsistent(states, tokens, key);
      EndInvalidation(states[key], HeldOn(key), generation);
      var s := states[key];
      if s.generation == generation && s.tombstoned && cleanupSafe {
        s := s.(cleanupSafe := true);
      }
      s := s.(invalidations := s.invalidations - 1);
      SettlingOutcome(states, retained, failClosed, tokens, key, s,
                      HeldOn(key).(invalidations := HeldOn(key).invalidations - multiset{generation}));
      SettleIdle(key, s, HeldOn(key).(invalidations := HeldOn(key).invalidations - multiset{generation}));
    }

    /** readable */
    method Readable(key: string) returns (readable: bool)
      ensures readable <==> ReadableIn(states, failClosed, key)
    {
      readable := !failClosed && (key !in states || !states[key].tombstoned);
    }

    /** settleIdleLocked, on the state the caller has just changed, with the tokens then left. */
    method SettleIdle(key: string, changed: KeyState, ghost held: Tokens)
      requires Valid() && key in states && !states[key].Idle()
      requires Counts(changed, held) && !changed.retained
      modifies this
      ensures Valid() && tokens == old(tokens)[key := held]
      ensures states == SettledStates(old(states), key, changed, old(failClosed))
      ensures failClosed == SettledFailClosed(old(states), key, changed, old(failClosed))
    {
      assert KeyConsistent(states, tokens, key);
      ghost var left := Settle(changed, failClosed);
      assert changed.Idle() ==> held == NO_TOKENS;
      UpdateKey(states, retained, failClosed, tokens, key, left, held);
      tokens := tokens[key := held];
      var s := changed;
      if s.writers != 0 || s.invalidations != 0 {
        states := states[key := s];
        return;
      }
      if s.tombstoned && s.cleanupSafe {
        s := s.(tombstoned := false);
      }
      if !s.tombstoned || failClosed {
        retained := if s.retained then retained - 1 else retained;
        states := states - {key};
        return;
      }
      if !s.retained {
        s := s.(retained := true);
        retained := retained + 1;
      }
      states := states[key := s];
      CapRetained();
    }

    /** capRetainedLocked: too many tombstones to remember, so nothing is readable any more. */
    method CapRetained()
      requires retained == |RetainedKeys(states)| <= MAX_RETAINED + 1 && !failClosed
      requires AllConsistent(states, tokens)
      modifies this
      ensures Valid() && tokens == old(tokens)
      ensures failClosed <==> old(retained) > MAX_RETAINED
      ensures states == if failClosed then DropIdle(old(states)) else old(states)
    {
      if retained <= MAX_RETAINED {
        return;
      }
      FailClosed(states, tokens);
      failClosed := true;
      states := map key | key in states && !(states[key].writers == 0 && states[key].invalidations == 0) :: states[key];
      assert states == DropIdle(old(states));
      retained := 0;
    }
  }
}
