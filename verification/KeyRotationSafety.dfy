/** What readers of the rotated token store see: over every stopping point of a rotation, over
    every run of operations, and exactly when a deleted token can come back. */
module KeyRotationSafety {
  import opened Common
  import opened KeyRotation

  // ---------- Frames ----------

  predicate Touches(w: Write, e: Entry) {
    match w
    case Put(f, _) => e == f
    case SetVersion(_) => false
    case Delete(f) => e == f
  }

  lemma {:induction false} Untouched(s: Store, ws: seq<Write>, failing: set<Entry>, e: Entry)
    requires forall i :: 0 <= i < |ws| ==> !Touches(ws[i], e)
    ensures Lookup(ApplyAll(s, ws, failing), e) == Lookup(s, e)
  {
    if ws != [] {
      Untouched(s, ws[..|ws| - 1], failing, e);
      assert !Touches(ws[|ws| - 1], e);
    }
  }

  lemma {:induction false} VersionKept(s: Store, ws: seq<Write>, failing: set<Entry>)
    requires forall i :: 0 <= i < |ws| ==> !ws[i].SetVersion?
    ensures ApplyAll(s, ws, failing).version == s.version
  {
    if ws != [] {
      VersionKept(s, ws[..|ws| - 1], failing);
      assert !ws[|ws| - 1].SetVersion?;
    }
  }

  lemma {:induction false} CopiesOnlyPut(s: Store, keys: seq<TokenKey>)
    ensures forall i :: 0 <= i < |Copies(s, keys)| ==>
              && Copies(s, keys)[i].Put?
              && Copies(s, keys)[i].entry.Versioned? && Copies(s, keys)[i].entry.version == Inactive(s)
              && Get(s, Copies(s, keys)[i].entry.key).Some?
  {
    if keys != [] {
      CopiesOnlyPut(s, keys[..|keys| - 1]);
    }
  }

  lemma {:induction false} DeletionsOnlyDelete(keys: seq<TokenKey>, version: nat)
    ensures forall i :: 0 <= i < |Deletions(keys, version)| ==>
              Deletions(keys, version)[i].Delete?
              && (Deletions(keys, version)[i].entry.Bare? || Deletions(keys, version)[i].entry.version == version)
  {
    if keys != [] {
      DeletionsOnlyDelete(keys[..|keys| - 1], version);
    }
  }

  lemma {:induction false} LookupPut(s: Store, e: Entry, v: string, failing: set<Entry>, f: Entry)
    ensures Lookup(Apply(s, Put(e, v), failing), f) == if f == e then Some(v) else Lookup(s, f)
  {
  }

  // After all copies, the inactive slot holds every value that could be read.
  lemma {:induction false} CopiedValue(s: Store, keys: seq<TokenKey>, failing: set<Entry>, key: TokenKey)
    ensures Lookup(ApplyAll(s, Copies(s, keys), failing), Versioned(key, Inactive(s)))
            == if key in keys && Get(s, key).Some? then Get(s, key) else Lookup(s, Versioned(key, Inactive(s)))
  {
    if keys != [] {
      var front, last := keys[..|keys| - 1], keys[|keys| - 1];
      CopiedValue(s, front, failing, key);
      assert key in keys <==> key in front || key == last by { assert keys == front + [last]; }
      match Get(s, last)
      case Some(v) =>
        var w := Put(Versioned(last, Inactive(s)), v);
        assert Copies(s, keys) == Copies(s, front) + [w];
        ApplySnoc(s, Copies(s, front), w, failing);
        LookupPut(ApplyAll(s, Copies(s, front), failing), w.entry, v, failing, Versioned(key, Inactive(s)));
      case None => assert Copies(s, keys) == Copies(s, front);
    }
  }

  lemma {:induction false} AllKeys(key: TokenKey)
    ensures key in KEYS
  {
    match key
    case SessionToken => assert KEYS[0] == key;
    case UserState => assert KEYS[1] == key;
  }

  // ---------- Every stopping point ----------

  // The version pointer has been switched.
  predicate Flipped(s: Store, steps: nat) {
    |Copies(s, KEYS)| < steps
  }

  lemma {:induction false} BeforeFlip(s: Store, steps: nat, failing: set<Entry>, key: TokenKey)
    requires !Flipped(s, steps)
    ensures Get(Rotated(s, steps, failing), key) == Get(s, key)
    ensures Active(Rotated(s, steps, failing)) == Active(s)
  {
    var ws := FirstOf(Copies(s, KEYS), steps);
    PlanParts(s, steps, failing);
    CopiesOnlyPut(s, KEYS);
    VersionKept(s, ws, failing);
    Untouched(s, ws, failing, Versioned(key, Active(s)));
    Untouched(s, ws, failing, Bare(key));
  }

  // The store right after the flip.
  function JustFlipped(s: Store, failing: set<Entry>): Store {
    ApplyAll(s, Copies(s, KEYS) + [SetVersion(Inactive(s))], failing)
  }

  lemma {:induction false} AtFlip(s: Store, failing: set<Entry>, key: TokenKey)
    ensures var t := JustFlipped(s, failing);
            && Active(t) == Inactive(s)
            && Lookup(t, Versioned(key, Inactive(s)))
               == (if Get(s, key).Some? then Get(s, key) else Lookup(s, Versioned(key, Inactive(s))))
            && Lookup(t, Versioned(key, Active(s))) == Lookup(s, Versioned(key, Active(s)))
            && Lookup(t, Bare(key)) == Lookup(s, Bare(key))
  {
    ApplySnoc(s, Copies(s, KEYS), SetVersion(Inactive(s)), failing);
    AfterCopies(s, failing, key);
    FlipOnly(ApplyAll(s, Copies(s, KEYS), failing), Inactive(s), failing);
  }

  lemma {:induction false} AfterCopies(s: Store, failing: set<Entry>, key: TokenKey)
    ensures var t := ApplyAll(s, Copies(s, KEYS), failing);
            && Lookup(t, Versioned(key, Inactive(s)))
               == (if Get(s, key).Some? then Get(s, key) else Lookup(s, Versioned(key, Inactive(s))))
            && Lookup(t, Versioned(key, Active(s))) == Lookup(s, Versioned(key, Active(s)))
            && Lookup(t, Bare(key)) == Lookup(s, Bare(key))
  {
    AllKeys(key);
    CopiedValue(s, KEYS, failing, key);
    CopiesOnlyPut(s, KEYS);
    Untouched(s, Copies(s, KEYS), failing, Versioned(key, Active(s)));
    Untouched(s, Copies(s, KEYS), failing, Bare(key));
  }

  lemma {:induction false} FlipOnly(s: Store, version: nat, failing: set<Entry>)
    requires version < 2
    ensures var t := Apply(s, SetVersion(version), failing); t.entries == s.entries && Active(t) == version
  {
  }

  lemma {:induction false} DeletionsKeep(s: Store, version: nat, other: nat, n: nat, failing: set<Entry>, key: TokenKey)
    requires other != version
    ensures var t := ApplyAll(s, FirstOf(Deletions(KEYS, version), n), failing);
            && t.version == s.version
            && Lookup(t, Versioned(key, other)) == Lookup(s, Versioned(key, other))
            && (Lookup(s, Bare(key)).None? ==> Lookup(t, Bare(key)).None?)
  {
    var ws := FirstOf(Deletions(KEYS, version), n);
    DeletionsOnlyDelete(KEYS, version);
    VersionKept(s, ws, failing);
    Untouched(s, ws, failing, Versioned(key, other));
    if Lookup(s, Bare(key)).None? {
      AbsentStaysAbsent(s, ws, failing, Bare(key));
    }
  }

  lemma {:induction false} AfterFlip(s: Store, steps: nat, failing: set<Entry>, key: TokenKey)
    requires Flipped(s, steps)
    ensures var t := Rotated(s, steps, failing);
            && Active(t) == Inactive(s)
            && Lookup(t, Versioned(key, Inactive(s)))
               == (if Get(s, key).Some? then Get(s, key) else Lookup(s, Versioned(key, Inactive(s))))
            && (Get(s, key).None? ==> Lookup(t, Bare(key)).None?)
  {
    RotatedAfterFlip(s, steps, failing);
    AfterDeletions(s, steps - |Copies(s, KEYS)| - 1, failing, key);
  }

  lemma {:induction false} AfterDeletions(s: Store, left: nat, failing: set<Entry>, key: TokenKey)
    ensures var t := ApplyAll(JustFlipped(s, failing), FirstOf(Deletions(KEYS, Active(s)), left), failing);
            && Active(t) == Inactive(s)
            && Lookup(t, Versioned(key, Inactive(s)))
               == (if Get(s, key).Some? then Get(s, key) else Lookup(s, Versioned(key, Inactive(s))))
            && (Get(s, key).None? ==> Lookup(t, Bare(key)).None?)
  {
    AtFlip(s, failing, key);
    DeletionsAfterFlip(s, JustFlipped(s, failing), left, failing, key);
  }

  lemma {:induction false} RotatedAfterFlip(s: Store, steps: nat, failing: set<Entry>)
    requires Flipped(s, steps)
    ensures Rotated(s, steps, failing)
            == ApplyAll(JustFlipped(s, failing),
                        FirstOf(Deletions(KEYS, Active(s)), steps - |Copies(s, KEYS)| - 1), failing)
  {
    PlanParts(s, steps, failing);
  }

  // Deleting the old slot leaves the new one alone, and brings no bare entry back.
  lemma {:induction false} DeletionsAfterFlip(s: Store, flipped: Store, left: nat, failing: set<Entry>, key: TokenKey)
    requires Active(flipped) == Inactive(s)
    ensures var t := ApplyAll(flipped, FirstOf(Deletions(KEYS, Active(s)), left), failing);
            && Active(t) == Inactive(s)
            && Lookup(t, Versioned(key, Inactive(s))) == Lookup(flipped, Versioned(key, Inactive(s)))
            && (Lookup(flipped, Bare(key)).None? ==> Lookup(t, Bare(key)).None?)
  {
    DeletionsKeep(flipped, Active(s), Inactive(s), left, failing, key);
  }

  lemma {:induction false} AbsentStaysAbsent(s: Store, ws: seq<Write>, failing: set<Entry>, e: Entry)
    requires Lookup(s, e).None? && forall i :: 0 <= i < |ws| && ws[i].Put? ==> ws[i].entry != e
    ensures Lookup(ApplyAll(s, ws, failing), e).None?
  {
    if ws != [] {
      AbsentStaysAbsent(s, ws[..|ws| - 1], failing, e);
      assert ws[|ws| - 1].Put? ==> ws[|ws| - 1].entry != e;
    }
  }

  /** What a reader sees after a rotation that stopped anywhere, whichever deletions failed:
      a readable token is unchanged, and an absent one shows what the inactive slot held once
      the pointer has flipped. */
  lemma {:induction false} ReadAfterRotation(s: Store, steps: nat, failing: set<Entry>, key: TokenKey)
    ensures Get(Rotated(s, steps, failing), key)
            == if Get(s, key).Some? then Get(s, key)
               else if Flipped(s, steps) then Lookup(s, Versioned(key, Inactive(s)))
               else None
  {
    if Flipped(s, steps) {
      AfterFlip(s, steps, failing, key);
    } else {
      BeforeFlip(s, steps, failing, key);
    }
  }

  // ---------- Runs against a plain map ----------

  datatype Op =
    | SetOp(key: TokenKey, value: string)
    | DeleteOp(key: TokenKey, failing: set<Entry>)
    | RotateOp(steps: nat, failing: set<Entry>)

  function Do(s: Store, op: Op): Store {
    match op
    case SetOp(k, v) => Set(s, k, v)
    case DeleteOp(k, failing) => Deleted(s, k, failing)
    case RotateOp(steps, failing) => Rotated(s, steps, failing)
  }

  function RunStore(s: Store, ops: seq<Op>): Store {
    if ops == [] then s else Do(RunStore(s, ops[..|ops| - 1]), ops[|ops| - 1])
  }

  type Plain = map<TokenKey, string>

  function DoPlain(m: Plain, op: Op): Plain {
    match op
    case SetOp(k, v) => m[k := v]
    case DeleteOp(k, _) => m - {k}
    case RotateOp(_, _) => m
  }

  function RunPlain(m: Plain, ops: seq<Op>): Plain {
    if ops == [] then m else DoPlain(RunPlain(m, ops[..|ops| - 1]), ops[|ops| - 1])
  }

  function PlainGet(m: Plain, key: TokenKey): Option<string> {
    if key in m then Some(m[key]) else None
  }

  // Every token of the map can be read.
  ghost predicate Serves(s: Store, m: Plain) {
    forall key :: key in m ==> Get(s, key) == Some(m[key])
  }

  // Exactly the tokens of the map can be read.
  ghost predicate Mirrors(s: Store, m: Plain) {
    forall key :: Get(s, key) == PlainGet(m, key)
  }

  lemma {:induction false} SetReads(s: Store, k: TokenKey, v: string, key: TokenKey)
    ensures Get(Set(s, k, v), key) == if key == k then Some(v) else Get(s, key)
    ensures Active(Set(s, k, v)) == Active(s)
    ensures Lookup(Set(s, k, v), Versioned(key, Inactive(s))) == Lookup(s, Versioned(key, Inactive(s)))
  {
  }

  lemma {:induction false} DeleteReads(s: Store, k: TokenKey, failing: set<Entry>, key: TokenKey)
    ensures key != k ==> Get(Deleted(s, k, failing), key) == Get(s, key)
    ensures failing == {} ==> Get(Deleted(s, k, failing), k) == None
    ensures Active(Deleted(s, k, failing)) == Active(s)
    ensures Lookup(Deleted(s, k, failing), Versioned(key, Inactive(s))) == Lookup(s, Versioned(key, Inactive(s)))
  {
    TwoDeletions(s, k, Active(s), failing);
  }

  /** Over every run, with rotations stopped anywhere and deletions failing at will, a token that
      was set and not deleted since is read back. */
  lemma {:induction false} RunServes(s: Store, m: Plain, ops: seq<Op>)
    requires Serves(s, m)
    ensures Serves(RunStore(s, ops), RunPlain(m, ops))
  {
    if ops != [] {
      var n := |ops| - 1;
      RunServes(s, m, ops[..n]);
      var t, p := RunStore(s, ops[..n]), RunPlain(m, ops[..n]);
      forall key | key in DoPlain(p, ops[n]) ensures Get(Do(t, ops[n]), key) == Some(DoPlain(p, ops[n])[key]) {
        match ops[n]
        case SetOp(k, v) => SetReads(t, k, v, key);
        case DeleteOp(k, failing) => DeleteReads(t, k, failing, key);
        case RotateOp(steps, failing) => ReadAfterRotation(t, steps, failing, key);
      }
    }
  }

  // The inactive slot is empty.
  ghost predicate Clean(s: Store) {
    forall key :: Lookup(s, Versioned(key, Inactive(s))).None?
  }

  // Deletions and rotations run to their end.
  predicate Completes(s: Store, op: Op) {
    match op
    case SetOp(_, _) => true
    case DeleteOp(_, failing) => failing == {}
    case RotateOp(steps, failing) => failing == {} && |Plan(s)| <= steps
  }

  predicate AllComplete(s: Store, ops: seq<Op>) {
    ops == [] || (AllComplete(s, ops[..|ops| - 1]) && Completes(RunStore(s, ops[..|ops| - 1]), ops[|ops| - 1]))
  }

  lemma {:induction false} DeletionsDelete(s: Store, keys: seq<TokenKey>, version: nat, key: TokenKey)
    requires key in keys
    ensures var t := ApplyAll(s, Deletions(keys, version), {});
            Lookup(t, Versioned(key, version)).None? && Lookup(t, Bare(key)).None?
  {
    var n := |keys| - 1;
    var before := Deletions(keys[..n], version);
    var first, second := Delete(Versioned(keys[n], version)), Delete(Bare(keys[n]));
    ApplySnoc(s, before, first, {});
    ApplySnoc(s, before + [first], second, {});
    assert Deletions(keys, version) == before + [first] + [second];
    if key != keys[n] {
      DeletionsDelete(s, keys[..n], version, key);
    }
  }

  lemma {:induction false} FullRotationCleans(s: Store, steps: nat)
    requires |Plan(s)| <= steps
    ensures Clean(Rotated(s, steps, {}))
    ensures forall key :: Lookup(Rotated(s, steps, {}), Bare(key)).None?
  {
    var copies := Copies(s, KEYS);
    PlanParts(s, steps, {});
    var flipped := JustFlipped(s, {});
    var t := Rotated(s, steps, {});
    assert |Plan(s)| == |copies| + 1 + |Deletions(KEYS, Active(s))|;
    assert FirstOf(Deletions(KEYS, Active(s)), steps - |copies| - 1) == Deletions(KEYS, Active(s));
    forall key ensures Lookup(t, Versioned(key, Inactive(t))).None? && Lookup(t, Bare(key)).None? {
      AfterFlip(s, steps, {}, key);
      AllKeys(key);
      DeletionsDelete(flipped, KEYS, Active(s), key);
    }
  }

  lemma {:induction false} StepMirrors(s: Store, m: Plain, op: Op)
    requires Clean(s) && Mirrors(s, m) && Completes(s, op)
    ensures Clean(Do(s, op)) && Mirrors(Do(s, op), DoPlain(m, op))
  {
    forall key ensures Get(Do(s, op), key) == PlainGet(DoPlain(m, op), key) {
      match op
      case SetOp(k, v) => SetReads(s, k, v, key);
      case DeleteOp(k, failing) => DeleteReads(s, k, failing, key);
      case RotateOp(steps, failing) => ReadAfterRotation(s, steps, failing, key);
    }
    match op
    case SetOp(k, v) =>
      forall key ensures Lookup(Do(s, op), Versioned(key, Inactive(Do(s, op)))).None? {
        SetReads(s, k, v, key);
      }
    case DeleteOp(k, failing) =>
      forall key ensures Lookup(Do(s, op), Versioned(key, Inactive(Do(s, op)))).None? {
        DeleteReads(s, k, failing, key);
      }
    case RotateOp(steps, failing) => FullRotationCleans(s, steps);
  }

  /** Over runs in which every deletion and rotation completes, the store is a plain map on which
      rotation is the identity, and the inactive slot stays empty. */
  lemma {:induction false} RunMirrors(s: Store, m: Plain, ops: seq<Op>)
    requires Clean(s) && Mirrors(s, m) && AllComplete(s, ops)
    ensures Clean(RunStore(s, ops)) && Mirrors(RunStore(s, ops), RunPlain(m, ops))
  {
    if ops != [] {
      var n := |ops| - 1;
      RunMirrors(s, m, ops[..n]);
      StepMirrors(RunStore(s, ops[..n]), RunPlain(m, ops[..n]), ops[n]);
    }
  }

  // ---------- Tokens from before rotation existed ----------

  // No operation sets or deletes the token.
  predicate Untouching(ops: seq<Op>, key: TokenKey) {
    forall i :: 0 <= i < |ops| ==> !((ops[i].SetOp? || ops[i].DeleteOp?) && ops[i].key == key)
  }

  lemma {:induction false} PlainKeeps(m: Plain, ops: seq<Op>, key: TokenKey)
    requires Untouching(ops, key) && key in m
    ensures key in RunPlain(m, ops) && RunPlain(m, ops)[key] == m[key]
  {
    if ops != [] {
      PlainKeeps(m, ops[..|ops| - 1], key);
      assert !((ops[|ops| - 1].SetOp? || ops[|ops| - 1].DeleteOp?) && ops[|ops| - 1].key == key);
    }
  }

  /** A token that an earlier version of the app left in its bare entry is read back with its value over
      every run that does not set or delete it, rotations stopped anywhere included. */
  lemma {:induction false} LegacyTokenServes(s: Store, ops: seq<Op>, key: TokenKey, value: string)
    requires Lookup(s, Versioned(key, 0)).None? && Lookup(s, Versioned(key, 1)).None?
    requires Lookup(s, Bare(key)) == Some(value) && Untouching(ops, key)
    ensures Get(RunStore(s, ops), key) == Some(value)
  {
    var m := map[key := value];
    assert Active(s) == 0 || Active(s) == 1;
    RunServes(s, m, ops);
    PlainKeeps(m, ops, key);
  }

  /** From an empty store, the first token goes to slot 0 and the first completed rotation moves it to
      slot 1 and leaves nothing else behind. */
  lemma {:induction false} FirstRotation(key: TokenKey, value: string, steps: nat)
    requires var s := Set(Store(map[], None), key, value); |Plan(s)| <= steps
    ensures var s := Set(Store(map[], None), key, value);
            var t := Rotated(s, steps, {});
            && s.version == None && s.entries == map[Versioned(key, 0) := value]
            && t.version == Some(1) && Lookup(t, Versioned(key, 1)) == Some(value)
            && forall k :: Lookup(t, Versioned(k, 0)).None? && Lookup(t, Bare(k)).None?
  {
    var s := Set(Store(map[], None), key, value);
    assert Get(s, key) == Some(value) && Active(s) == 0 && Inactive(s) == 1;
    AfterFlip(s, steps, {}, key);
    FullRotationCleans(s, steps);
    FlippedVersion(s, steps);
    var t := Rotated(s, steps, {});
    forall k ensures Lookup(t, Versioned(k, 0)).None? && Lookup(t, Bare(k)).None? {
      assert Lookup(t, Versioned(k, Inactive(t))).None?;
    }
  }

  lemma {:induction false} FlippedVersion(s: Store, steps: nat)
    requires Flipped(s, steps)
    ensures Rotated(s, steps, {}).version == Some(Inactive(s))
  {
    RotatedAfterFlip(s, steps, {});
    JustFlippedVersion(s);
    DeletionsKeepVersion(JustFlipped(s, {}), Active(s), steps - |Copies(s, KEYS)| - 1);
  }

  lemma {:induction false} JustFlippedVersion(s: Store)
    ensures JustFlipped(s, {}).version == Some(Inactive(s))
  {
    ApplySnoc(s, Copies(s, KEYS), SetVersion(Inactive(s)), {});
  }

  lemma {:induction false} DeletionsKeepVersion(s: Store, version: nat, n: nat)
    ensures ApplyAll(s, FirstOf(Deletions(KEYS, version), n), {}).version == s.version
  {
    DeletionsOnlyDelete(KEYS, version);
    VersionKept(s, FirstOf(Deletions(KEYS, version), n), {});
  }

  // ---------- When a deleted token comes back ----------

  // No entry holds a value of the token.
  ghost predicate Gone(s: Store, key: TokenKey) {
    Lookup(s, Versioned(key, 0)).None? && Lookup(s, Versioned(key, 1)).None? && Lookup(s, Bare(key)).None?
  }

  lemma {:induction false} GoneIff(s: Store, key: TokenKey)
    ensures Gone(s, key) <==> Get(s, key).None? && Lookup(s, Versioned(key, Inactive(s))).None?
  {
    assert Active(s) == 0 || Active(s) == 1;
  }

  lemma {:induction false} WritesKeepGone(s: Store, ws: seq<Write>, failing: set<Entry>, key: TokenKey)
    requires Gone(s, key) && forall i :: 0 <= i < |ws| && ws[i].Put? ==> ws[i].entry.key != key
    ensures Gone(ApplyAll(s, ws, failing), key)
  {
    AbsentStaysAbsent(s, ws, failing, Versioned(key, 0));
    AbsentStaysAbsent(s, ws, failing, Versioned(key, 1));
    AbsentStaysAbsent(s, ws, failing, Bare(key));
  }

  lemma {:induction false} PlanSkips(s: Store, steps: nat, key: TokenKey)
    requires Get(s, key).None?
    ensures var ws := FirstOf(Plan(s), steps); forall i :: 0 <= i < |ws| && ws[i].Put? ==> ws[i].entry.key != key
  {
    CopiesOnlyPut(s, KEYS);
    DeletionsOnlyDelete(KEYS, Active(s));
  }

  lemma {:induction false} StepKeepsGone(s: Store, op: Op, key: TokenKey)
    requires Gone(s, key) && !(op.SetOp? && op.key == key)
    ensures Gone(Do(s, op), key)
  {
    match op
    case SetOp(k, v) =>
    case DeleteOp(k, failing) =>
      WritesKeepGone(s, BothOf(k, Active(s)), failing, key);
    case RotateOp(steps, failing) =>
      GoneIff(s, key);
      PlanSkips(s, steps, key);
      WritesKeepGone(s, FirstOf(Plan(s), steps), failing, key);
  }

  // No operation sets the token.
  predicate Unset(ops: seq<Op>, key: TokenKey) {
    forall i :: 0 <= i < |ops| ==> !(ops[i].SetOp? && ops[i].key == key)
  }

  lemma {:induction false} RunKeepsGone(s: Store, ops: seq<Op>, key: TokenKey)
    requires Gone(s, key) && Unset(ops, key)
    ensures Gone(RunStore(s, ops), key)
  {
    if ops != [] {
      RunKeepsGone(s, ops[..|ops| - 1], key);
      StepKeepsGone(RunStore(s, ops[..|ops| - 1]), ops[|ops| - 1], key);
    }
  }

  lemma {:induction false} RotationBringsBack(s: Store, key: TokenKey, value: string)
    requires Lookup(s, Versioned(key, Inactive(s))) == Some(value)
    ensures var d := Deleted(s, key, {});
            Get(RunStore(d, [RotateOp(|Plan(d)|, {})]), key) == Some(value)
  {
    var d := Deleted(s, key, {});
    var ops := [RotateOp(|Plan(d)|, {})];
    assert ops[..0] == [] && RunStore(d, ops) == Rotated(d, |Plan(d)|, {});
    StaleReturns(s, key, value, |Plan(d)|);
  }

  /** After a completed deletion the token stays unreadable, over every run of operations that does not
      set it again, rotations stopped anywhere and deletions failing at will, if and only if its
      inactive slot was empty at the deletion. */
  lemma {:induction false} StaysDeletedIff(s: Store, key: TokenKey)
    ensures (forall ops :: Unset(ops, key) ==> Get(RunStore(Deleted(s, key, {}), ops), key).None?)
            <==> Lookup(s, Versioned(key, Inactive(s))).None?
  {
    var d := Deleted(s, key, {});
    match Lookup(s, Versioned(key, Inactive(s)))
    case None =>
      DeleteReads(s, key, {}, key);
      GoneIff(d, key);
      forall ops | Unset(ops, key) ensures Get(RunStore(d, ops), key).None? {
        RunKeepsGone(d, ops, key);
        GoneIff(RunStore(d, ops), key);
      }
    case Some(value) =>
      RotationBringsBack(s, key, value);
      assert Unset([RotateOp(|Plan(d)|, {})], key);
  }

  // Stopped right after the flip, the now inactive slot still holds the old value.
  lemma {:induction false} StoppedAtFlip(s: Store, key: TokenKey)
    ensures var t := Rotated(s, |Copies(s, KEYS)| + 1, {});
            Active(t) == Inactive(s) && Lookup(t, Versioned(key, Active(s))) == Lookup(s, Versioned(key, Active(s)))
  {
    PlanParts(s, |Copies(s, KEYS)| + 1, {});
    assert FirstOf(Deletions(KEYS, Active(s)), 0) == [];
    AtFlip(s, {}, key);
  }

  lemma {:induction false} RunThree(s: Store, a: Op, b: Op, c: Op)
    ensures RunStore(s, [a, b, c]) == Do(Do(Do(s, a), b), c)
  {
    assert [a, b, c][..2] == [a, b] && [a, b][..1] == [a] && [a][..0] == [];
    assert RunStore(s, [a]) == Do(s, a);
    assert RunStore(s, [a, b]) == Do(Do(s, a), b);
  }

  lemma {:induction false} StaleReturns(s: Store, key: TokenKey, value: string, steps: nat)
    requires Lookup(s, Versioned(key, Inactive(s))) == Some(value)
    requires Flipped(Deleted(s, key, {}), steps)
    ensures Get(Rotated(Deleted(s, key, {}), steps, {}), key) == Some(value)
  {
    DeleteReads(s, key, {}, key);
    ReadAfterRotation(Deleted(s, key, {}), steps, {}, key);
  }

  /** So it can come back: a rotation stopped right after the flip, a deletion, and a completed
      rotation restore any token that was in the active slot. */
  lemma {:induction false} InterruptedRotationResurrects(s: Store, key: TokenKey, value: string, stop: nat, steps: nat)
    requires Lookup(s, Versioned(key, Active(s))) == Some(value)
    requires stop == |Copies(s, KEYS)| + 1
    requires Flipped(Deleted(Rotated(s, stop, {}), key, {}), steps)
    ensures Get(RunStore(s, [RotateOp(stop, {}), DeleteOp(key, {}), RotateOp(steps, {})]), key) == Some(value)
  {
    RunThree(s, RotateOp(stop, {}), DeleteOp(key, {}), RotateOp(steps, {}));
    StoppedAtFlip(s, key);
    FlipSwaps(s, Rotated(s, stop, {}));
    StaleReturns(Rotated(s, stop, {}), key, value, steps);
  }

  lemma {:induction false} FlipSwaps(s: Store, t: Store)
    requires Active(t) == Inactive(s)
    ensures Inactive(t) == Active(s)
  {
  }

  // ---------- Entry names ----------

  function BaseName(key: TokenKey): string {
    match key
    case SessionToken => "privy_session_token"
    case UserState => "privy_user_state"
  }

  function Name(e: Entry): string
    requires e.Versioned? ==> e.version < 2
  {
    match e
    case Versioned(k, v) => BaseName(k) + "_v" + (if v == 0 then "0" else "1")
    case Bare(k) => BaseName(k)
  }

  const VERSION_NAME := "auth_key_rotation_version"

  /** Different entries have different names, none of them the version pointer's. */
  lemma {:induction false} NamesDistinct(d: Entry, e: Entry)
    requires d.Versioned? ==> d.version < 2
    requires e.Versioned? ==> e.version < 2
    ensures Name(d) == Name(e) ==> d == e
    ensures Name(d) != VERSION_NAME
  {
    assert Name(d)[0] == 'p' && VERSION_NAME[0] == 'a';
    assert Name(d)[6] == BaseName(d.key)[6] && Name(e)[6] == BaseName(e.key)[6];
    assert BaseName(SessionToken)[6] == 's' && BaseName(UserState)[6] == 'u';
    if Name(d) == Name(e) {
      assert d.key == e.key;
      assert |Name(d)| == |Name(e)|;
      if d.Versioned? {
        assert Name(d)[|Name(d)| - 1] == (if d.version == 0 then '0' else '1');
        assert Name(e)[|Name(e)| - 1] == (if e.version == 0 then '0' else '1');
      }
    }
  }

  /** The documented examples of entry names. */
  lemma {:induction false} DocumentedNames()
    ensures Name(Versioned(SessionToken, 0)) == "privy_session_token_v0"
    ensures Name(Versioned(SessionToken, 1)) == "privy_session_token_v1"
  {
  }
}
