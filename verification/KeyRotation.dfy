/** Two-slot rotation of stored session tokens. A rotation copies the values to the inactive slot,
    flips the version pointer and deletes the old slot; it may stop before any of its writes,
    because the process ends or because a write throws. */
module KeyRotation {
  import opened Common

  datatype TokenKey = SessionToken | UserState

  // ROTATABLE_TOKEN_KEYS
  const KEYS: seq<TokenKey> := [SessionToken, UserState]

  // A versioned slot entry, or the bare entry written before rotation existed.
  datatype Entry = Versioned(key: TokenKey, version: nat) | Bare(key: TokenKey)

  // `version` is the number read back from the version entry, if there is one.
  datatype Store = Store(entries: map<Entry, string>, version: Option<nat>)

  function Active(s: Store): nat {
    match s.version
    case None => 0
    case Some(n) => n % 2
  }

  function Inactive(s: Store): nat {
    (Active(s) + 1) % 2
  }

  function Lookup(s: Store, e: Entry): Option<string> {
    if e in s.entries then Some(s.entries[e]) else None
  }

  function Get(s: Store, key: TokenKey): Option<string> {
    match Lookup(s, Versioned(key, Active(s)))
    case Some(v) => Some(v)
    case None => Lookup(s, Bare(key))
  }

  // ---------- Single writes ----------

  datatype Write =
    | Put(entry: Entry, value: string)
    | SetVersion(version: nat)
    | Delete(entry: Entry)

  // A deletion may fail silently.
  function Apply(s: Store, w: Write, failing: set<Entry>): Store {
    match w
    case Put(e, v) => s.(entries := s.entries[e := v])
    case SetVersion(n) => s.(version := Some(n))
    case Delete(e) => if e in failing then s else s.(entries := s.entries - {e})
  }

  function ApplyAll(s: Store, ws: seq<Write>, failing: set<Entry>): Store {
    if ws == [] then s else Apply(ApplyAll(s, ws[..|ws| - 1], failing), ws[|ws| - 1], failing)
  }

  function Copies(s: Store, keys: seq<TokenKey>): seq<Write> {
    if keys == [] then []
    else
      var n := |keys| - 1;
      Copies(s, keys[..n])
      + (match Get(s, keys[n]) case Some(v) => [Put(Versioned(keys[n], Inactive(s)), v)] case None => [])
  }

  function BothOf(key: TokenKey, version: nat): seq<Write> {
    [Delete(Versioned(key, version)), Delete(Bare(key))]
  }

  function Deletions(keys: seq<TokenKey>, version: nat): seq<Write> {
    if keys == [] then []
    else
      var n := |keys| - 1;
      Deletions(keys[..n], version) + BothOf(keys[n], version)
  }

  // All writes of one rotation, planned from what it read at the start.
  function Plan(s: Store): seq<Write> {
    Copies(s, KEYS) + [SetVersion(Inactive(s))] + Deletions(KEYS, Active(s))
  }

  // The store when a rotation performed its first `steps` writes.
  function Rotated(s: Store, steps: nat, failing: set<Entry>): Store {
    ApplyAll(s, FirstOf(Plan(s), steps), failing)
  }

  function Set(s: Store, key: TokenKey, value: string): Store {
    Apply(s, Put(Versioned(key, Active(s)), value), {})
  }

  function Deleted(s: Store, key: TokenKey, failing: set<Entry>): Store {
    ApplyAll(s, BothOf(key, Active(s)), failing)
  }

  // ---------- The source's operations ----------

  class SecureStorage {
    var entries: map<Entry, string>
    var version: Option<nat>

    function State(): Store
      reads this
    {
      Store(entries, version)
    }

    method GetActiveKeyVersion() returns (v: nat)
      ensures v == Active(State())
    {
      v := if version.Some? then version.value % 2 else 0;
    }

    method GetItem(e: Entry) returns (v: Option<string>)
      ensures v == Lookup(State(), e)
    {
      v := if e in entries then Some(entries[e]) else None;
    }

    method GetRotatedToken(key: TokenKey) returns (r: Option<string>)
      ensures r == Get(State(), key)
    {
      var v := GetActiveKeyVersion();
      var versioned := GetItem(Versioned(key, v));
      if versioned.Some? {
        return versioned;
      }
      r := GetItem(Bare(key));
    }

    method SetRotatedToken(key: TokenKey, value: string)
      modifies this
      ensures State() == Set(old(State()), key, value)
    {
      var v := GetActiveKeyVersion();
      entries := entries[Versioned(key, v) := value];
    }

    method DeleteItem(e: Entry, failing: set<Entry>)
      modifies this
      ensures State() == Apply(old(State()), Delete(e), failing)
    {
      if e !in failing {
        entries := entries - {e};
      }
    }

    method DeleteRotatedToken(key: TokenKey, failing: set<Entry>)
      modifies this
      ensures State() == Deleted(old(State()), key, failing)
    {
      var v := GetActiveKeyVersion();
      TwoDeletions(State(), key, v, failing);
      DeleteItem(Versioned(key, v), failing);
      DeleteItem(Bare(key), failing);
    }

    // Step 1: read every token from the current slot or its bare key.
    method ReadTokens() returns (values: seq<Option<string>>)
      ensures |values| == |KEYS| && forall j :: 0 <= j < |KEYS| ==> values[j] == Get(State(), KEYS[j])
    {
      values := [];
      for i := 0 to |KEYS|
        invariant |values| == i && forall j :: 0 <= j < i ==> values[j] == Get(State(), KEYS[j])
      {
        var value := GetRotatedToken(KEYS[i]);
        values := values + [value];
      }
    }

    // Step 2: write the non-null tokens into the new slot, at most `steps` of them.
    method CopyTokens(values: seq<Option<string>>, next: nat, steps: nat, ghost failing: set<Entry>)
      returns (left: nat, ok: bool)
      requires next == Inactive(State())
      requires |values| == |KEYS| && forall j :: 0 <= j < |KEYS| ==> values[j] == Get(State(), KEYS[j])
      modifies this
      ensures var ws := Copies(old(State()), KEYS);
              && State() == ApplyAll(old(State()), FirstOf(ws, steps), failing)
              && ok == (|ws| <= steps) && (ok ==> left == steps - |ws|)
    {
      ghost var s0 := State();
      ghost var done: seq<Write> := [];
      left := steps;
      for i := 0 to |KEYS|
        invariant done == Copies(s0, KEYS[..i])
        invariant State() == ApplyAll(s0, done, failing)
        invariant left == steps - |done|
      {
        CopiesPrefix(s0, KEYS, i);
        assert KEYS[..i + 1][..i] == KEYS[..i];
        CopiesPrefix(s0, KEYS, i + 1);
        if values[i].Some? {
          if left == 0 {
            assert Copies(s0, KEYS)[..steps] == done;
            return 0, false;
          }
          ghost var w := Put(Versioned(KEYS[i], next), values[i].value);
          ApplySnoc(s0, done, w, failing);
          entries := entries[Versioned(KEYS[i], next) := values[i].value];
          done := done + [w];
          left := left - 1;
        }
      }
      assert KEYS[..|KEYS|] == KEYS;
      return left, true;
    }

    // The old entries of one token, as far as `steps` reaches.
    method DeleteBoth(key: TokenKey, current: nat, steps: nat, failing: set<Entry>) returns (left: nat, ok: bool)
      modifies this
      ensures State() == ApplyAll(old(State()), FirstOf(BothOf(key, current), steps), failing)
      ensures ok == (2 <= steps) && (ok ==> left == steps - 2)
    {
      ghost var s0 := State();
      TwoDeletions(s0, key, current, failing);
      if steps == 0 {
        return 0, false;
      }
      DeleteItem(Versioned(key, current), failing);
      if steps == 1 {
        return 0, false;
      }
      DeleteItem(Bare(key), failing);
      return steps - 2, true;
    }

    // Step 4: best-effort deletion of the old slot and the bare keys.
    method DeleteOldSlot(current: nat, steps: nat, failing: set<Entry>) returns (ok: bool)
      modifies this
      ensures var ws := Deletions(KEYS, current);
              State() == ApplyAll(old(State()), FirstOf(ws, steps), failing) && ok == (|ws| <= steps)
    {
      ghost var s0 := State();
      var left := steps;
      for i := 0 to |KEYS|
        invariant State() == ApplyAll(s0, Deletions(KEYS[..i], current), failing)
        invariant left == steps - |Deletions(KEYS[..i], current)|
      {
        ghost var before := left;
        DeletionsPrefix(KEYS, current, i);
        DeletionsNext(KEYS, current, i);
        ApplyConcat(s0, Deletions(KEYS[..i], current), FirstOf(BothOf(KEYS[i], current), left), failing);
        var more;
        left, more := DeleteBoth(KEYS[i], current, left, failing);
        if !more {
          EndsWithin(Deletions(KEYS[..i], current), BothOf(KEYS[i], current), Deletions(KEYS, current), before);
          return false;
        }
      }
      assert KEYS[..|KEYS|] == KEYS;
      return true;
    }

    // `steps`: how many writes happen before the process stops or a write throws.
    method RotateSecureStorageKey(steps: nat, failing: set<Entry>) returns (ok: bool)
      modifies this
      ensures State() == Rotated(old(State()), steps, failing)
      ensures ok <==> |Plan(old(State()))| <= steps
    {
      ghost var s0 := State();
      var current := GetActiveKeyVersion();
      var next := (current + 1) % 2;
      var values := ReadTokens();
      var left, copied := CopyTokens(values, next, steps, failing);
      ghost var copies := Copies(s0, KEYS);
      PlanParts(s0, steps, failing);
      if !copied || left == 0 {
        return false;
      }
      version := Some(next);
      ApplySnoc(s0, copies, SetVersion(next), failing);
      ok := DeleteOldSlot(current, left - 1, failing);
    }
  }

  function FirstOf(ws: seq<Write>, n: nat): seq<Write> {
    if n < |ws| then ws[..n] else ws
  }

  lemma {:induction false} ApplyConcat(s: Store, a: seq<Write>, b: seq<Write>, failing: set<Entry>)
    ensures ApplyAll(s, a + b, failing) == ApplyAll(ApplyAll(s, a, failing), b, failing)
  {
    if b == [] {
      assert a + b == a;
    } else {
      var n := |b| - 1;
      ApplyConcat(s, a, b[..n], failing);
      assert (a + b)[..|a + b| - 1] == a + b[..n];
    }
  }

  // A prefix of the plan ends among the copies, or contains the flip and some deletions.
  lemma {:induction false} PlanParts(s: Store, steps: nat, failing: set<Entry>)
    ensures var copies := Copies(s, KEYS);
            var flip := [SetVersion(Inactive(s))];
            Rotated(s, steps, failing)
            == if steps <= |copies| then ApplyAll(s, FirstOf(copies, steps), failing)
               else ApplyAll(ApplyAll(s, copies + flip, failing),
                             FirstOf(Deletions(KEYS, Active(s)), steps - |copies| - 1), failing)
  {
    var copies := Copies(s, KEYS);
    var flip := [SetVersion(Inactive(s))];
    var deletions := Deletions(KEYS, Active(s));
    if steps <= |copies| {
      assert Plan(s)[..steps] == FirstOf(copies, steps);
    } else {
      var rest := FirstOf(deletions, steps - |copies| - 1);
      assert FirstOf(Plan(s), steps) == (copies + flip) + rest;
      ApplyConcat(s, copies + flip, rest, failing);
    }
  }

  lemma {:induction false} ApplySnoc(s: Store, ws: seq<Write>, w: Write, failing: set<Entry>)
    ensures ApplyAll(s, ws + [w], failing) == Apply(ApplyAll(s, ws, failing), w, failing)
  {
    assert (ws + [w])[..|ws|] == ws;
  }

  lemma {:induction false} CopiesPrefix(s: Store, keys: seq<TokenKey>, i: nat)
    requires i <= |keys|
    ensures Copies(s, keys[..i]) <= Copies(s, keys)
  {
    if i < |keys| {
      var n := |keys| - 1;
      CopiesPrefix(s, keys[..n], i);
      assert keys[..n][..i] == keys[..i];
    } else {
      assert keys[..i] == keys;
    }
  }

  lemma {:induction false} TwoDeletions(s: Store, key: TokenKey, version: nat, failing: set<Entry>)
    ensures var first, second := Delete(Versioned(key, version)), Delete(Bare(key));
            && ApplyAll(s, FirstOf(BothOf(key, version), 0), failing) == s
            && ApplyAll(s, FirstOf(BothOf(key, version), 1), failing) == Apply(s, first, failing)
            && ApplyAll(s, BothOf(key, version), failing) == Apply(Apply(s, first, failing), second, failing)
  {
    var both := BothOf(key, version);
    assert both[..1] == [both[0]] && both[..0] == [] && [both[0]][..0] == [];
    assert ApplyAll(s, [both[0]], failing) == Apply(s, both[0], failing);
  }

  // The first steps end within the next few writes.
  lemma {:induction false} EndsWithin(done: seq<Write>, next: seq<Write>, all: seq<Write>, left: nat)
    requires done + next <= all && left < |next|
    ensures FirstOf(all, |done| + left) == done + FirstOf(next, left)
  {
    assert (done + next)[..|done| + left] == done + next[..left];
  }

  lemma {:induction false} DeletionsNext(keys: seq<TokenKey>, version: nat, i: nat)
    requires i < |keys|
    ensures Deletions(keys[..i + 1], version) == Deletions(keys[..i], version) + BothOf(keys[i], version)
  {
    assert keys[..i + 1][..i] == keys[..i];
  }

  lemma {:induction false} DeletionsPrefix(keys: seq<TokenKey>, version: nat, i: nat)
    requires i < |keys|
    ensures Deletions(keys[..i], version) + BothOf(keys[i], version) <= Deletions(keys, version)
  {
    var n := |keys| - 1;
    if i < n {
      DeletionsPrefix(keys[..n], version, i);
      assert keys[..n][..i] == keys[..i];
    }
  }
}
