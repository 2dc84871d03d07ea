/** Who may write a staging file of local storage, and when staging directories are swept
    (internal/cache/local.go: beginStaging, finishStaging, cleanupStagingDirectoriesLocked).

    Each method is one step under the mutex, or one wait on a channel.  Uploads interleave these steps in
    any order.  A channel is closed once, when the upload that made it ends. */
module StagingGate {
  import opened Wrappers
  import opened StoragePath
  import opened Staging

  /** An upload waits for the channel of another, or is the one that may write; then it may have made its
      staging directory. */
  datatype Upload = Waiting(key: string, channel: nat) | Active(key: string, channel: nat, made: bool)

  datatype Gate = Gate(active: map<string, nat>, closed: set<nat>, unused: nat, uploads: map<nat, Upload>,
                       directories: set<string>, dirty: bool)

  /** What an upload relies on: its own channel is the one registered for its key, and its directory is
      there; the channel it waits for is registered, or closed. */
  predicate UploadInv(g: Gate, p: nat) {
    p in g.uploads ==>
      match g.uploads[p]
      case Active(key, channel, made) =>
        key in g.active && g.active[key] == channel && channel !in g.closed && channel < g.unused &&
        (made ==> key in g.directories)
      case Waiting(key, channel) => channel < g.unused && (channel in g.closed || (key in g.active && g.active[key] == channel))
  }

  predicate Owns(g: Gate, p: nat, key: string) {
    p in g.uploads && g.uploads[p].Active? && g.uploads[p].key == key
  }

  /** A registered key has exactly one upload that may write it. */
  ghost predicate KeyInv(g: Gate, key: string) {
    (key in g.active ==> exists p :: Owns(g, p, key)) && forall p, q | Owns(g, p, key) && Owns(g, q, key) :: p == q
  }

  /** Every registered key has an open channel of its own. */
  predicate Channels(g: Gate) {
    (forall c | c in g.closed :: c < g.unused) &&
    (forall key | key in g.active :: g.active[key] < g.unused && g.active[key] !in g.closed) &&
    forall a, b | a in g.active && b in g.active && g.active[a] == g.active[b] :: a == b
  }

  ghost predicate Inv(g: Gate) {
    Channels(g) && (forall p :: UploadInv(g, p)) && forall key :: KeyInv(g, key)
  }

  // ---------------------------------------------------------------- what the invariant gives

  /** Two uploads that may write at the same time write different files, and neither file is in the way
      of the directories of the other. */
  lemma ActiveUploadsAreApart(g: Gate, p: nat, q: nat, isUtf8: string -> bool)
    requires Inv(g) && p != q && p in g.uploads && q in g.uploads && g.uploads[p].Active? && g.uploads[q].Active?
    requires var a, b := g.uploads[p].key, g.uploads[q].key;
             IsBytes(a) && IsBytes(b) && ValidKey(a, isUtf8) && ValidKey(b, isUtf8)
    ensures var x, y := StagingPath(g.uploads[p].key, isUtf8), StagingPath(g.uploads[q].key, isUtf8);
            x.Some? && y.Some? && x != y && !HasPrefix(y.value, x.value + "/") && !HasPrefix(x.value, y.value + "/")
  {
    var a, b := g.uploads[p].key, g.uploads[q].key;
    if a == b {
      assert Owns(g, p, a) && Owns(g, q, a) && KeyInv(g, a);
    }
    PathsAreDisjoint(a, b, isUtf8);
    PathsAreDisjoint(b, a, isUtf8);
  }

  /** No wait is lost: the channel of a waiting upload is closed, or somebody is writing who will close it. */
  lemma WaitsForSomebody(g: Gate, p: nat)
    requires Inv(g) && p in g.uploads && g.uploads[p].Waiting?
    ensures g.uploads[p].channel in g.closed ||
            exists q :: Owns(g, q, g.uploads[p].key) && g.uploads[q].channel == g.uploads[p].channel
  {
    assert UploadInv(g, p) && KeyInv(g, g.uploads[p].key);
    if g.uploads[p].channel !in g.closed {
      var q :| Owns(g, q, g.uploads[p].key);
      assert UploadInv(g, q);
    }
  }

  // ---------------------------------------------------------------- the steps

  /** beginStaging under the mutex: the key is registered, or its channel is waited for. */
  function BeginOn(g: Gate, p: nat, key: string): Gate {
    if key in g.active then g.(uploads := g.uploads[p := Waiting(key, g.active[key])])
    else g.(active := g.active[key := g.unused], unused := g.unused + 1, uploads := g.uploads[p := Active(key, g.unused, false)])
  }

  /** finishStaging: the key is no longer registered, its channel is closed, and the last one out sweeps
      the directories, but for those that hold a file left over; unless the storage can not be opened. */
  function FinishOn(g: Gate, p: nat, opens: bool, occupied: set<string>): Gate
    requires p in g.uploads
  {
    var u := g.uploads[p];
    if !(u.key in g.active && g.active[u.key] == u.channel) then g.(uploads := g.uploads - {p})
    else
      var left := g.active - {u.key};
      g.(active := left, closed := g.closed + {u.channel}, uploads := g.uploads - {p},
         directories := if left == map[] && opens then g.directories * occupied else g.directories,
         dirty := !(left == map[] && opens))
  }

  lemma BeginKeepsInv(g: Gate, p: nat, key: string)
    requires Inv(g) && (p in g.uploads ==> g.uploads[p].Waiting?)
    ensures Inv(BeginOn(g, p, key))
  {
    var t := BeginOn(g, p, key);
    forall q
      ensures UploadInv(t, q)
    {
      assert UploadInv(g, q);
      if q == p && key in g.active {
        assert KeyInv(g, key);
        var owner :| Owns(g, owner, key);
        assert UploadInv(g, owner);
      }
    }
    forall other
      ensures KeyInv(t, other)
    {
      assert KeyInv(g, other);
      forall q | Owns(t, q, other)
        ensures Owns(g, q, other) || (q == p && other == key && key !in g.active)
      {
      }
      forall q, r | Owns(t, q, other) && Owns(t, r, other)
        ensures q == r
      {
        assert UploadInv(g, q) && UploadInv(g, r);
      }
      if other in t.active {
        if other == key && key !in g.active {
          assert Owns(t, p, key);
        } else {
          var owner :| Owns(g, owner, other);
          assert Owns(t, owner, other);
        }
      }
    }
  }

  lemma FinishKeepsInv(g: Gate, p: nat, opens: bool, occupied: set<string>)
    requires Inv(g) && p in g.uploads && g.uploads[p].Active?
    ensures Inv(FinishOn(g, p, opens, occupied)) && FinishOn(g, p, opens, occupied).active == g.active - {g.uploads[p].key}
  {
    var t, u := FinishOn(g, p, opens, occupied), g.uploads[p];
    assert UploadInv(g, p) && Owns(g, p, u.key) && KeyInv(g, u.key);
    forall q
      ensures UploadInv(t, q)
    {
      assert UploadInv(g, q);
      if q != p && q in g.uploads && g.uploads[q].Active? {
        assert Owns(g, q, g.uploads[q].key) && KeyInv(g, g.uploads[q].key);
      }
    }
    forall other
      ensures KeyInv(t, other)
    {
      assert KeyInv(g, other);
      forall q | Owns(t, q, other)
        ensures Owns(g, q, other)
      {
      }
      if other in t.active {
        var owner :| Owns(g, owner, other);
        assert Owns(t, owner, other);
      }
    }
  }

  // ---------------------------------------------------------------- the gate

  class LocalStaging {
    var activeStaging: map<string, nat>
    var closed: set<nat>
    var unused: nat
    var uploads: map<nat, Upload>
    var directories: set<string>
    var stagingCleanupNeeded: bool

    function Now(): Gate
      reads this
    {
      Gate(activeStaging, closed, unused, uploads, directories, stagingCleanupNeeded)
    }

    ghost predicate Valid()
      reads this
    {
      Inv(Now())
    }

    constructor ()
      ensures Valid() && uploads == map[] && activeStaging == map[]
    {
      activeStaging, closed, unused, uploads, directories, stagingCleanupNeeded := map[], {}, 0, map[], {}, false;
    }

    /** beginStaging, from one lock of the mutex to the next: by an upload that starts, or by one whose
        channel has been closed. */
    method Begin(p: nat, key: string) returns (admitted: bool)
      requires Valid() && (p in uploads ==> uploads[p].Waiting? && uploads[p].key == key && uploads[p].channel in closed)
      modifies this
      ensures Valid() && Now() == BeginOn(old(Now()), p, key) && Owns(Now(), p, key) == admitted
      ensures admitted <==> key !in old(activeStaging)
    {
      BeginKeepsInv(Now(), p, key);
      if key !in activeStaging {
        activeStaging, uploads, unused := activeStaging[key := unused], uploads[p := Active(key, unused, false)], unused + 1;
        return true;
      }
      uploads := uploads[p := Waiting(key, activeStaging[key])];
      return false;
    }

    /** A cancelled wait leaves nothing behind. */
    method GiveUp(p: nat)
      requires Valid() && p in uploads && uploads[p].Waiting?
      modifies this
      ensures Valid() && Now() == old(Now()).(uploads := old(uploads) - {p})
    {
      GiveUpKeepsInv(Now(), p);
      uploads := uploads - {p};
    }

    /** The upload makes its staging directory. */
    method MakeDirectory(p: nat)
      requires Valid() && p in uploads && uploads[p].Active?
      modifies this
      ensures Valid() && p in uploads && uploads[p] == old(uploads)[p].(made := true) && uploads[p].key in directories
      ensures activeStaging == old(activeStaging) && closed == old(closed) && directories == old(directories) + {uploads[p].key}
    {
      MakingKeepsInv(Now(), p);
      directories, uploads := directories + {uploads[p].key}, uploads[p := uploads[p].(made := true)];
    }

    /** The function that beginStaging returns.  Only its first call does anything; it ends the upload, wakes
        those that wait for it, and sweeps the staging directories if and only if nobody else is
        writing. */
    method Finish(p: nat, opens: bool, occupied: set<string>)
      requires Valid()
      modifies this
      ensures Valid()
      ensures if p in old(uploads) && old(uploads)[p].Active? then
                Now() == FinishOn(old(Now()), p, opens, occupied) && p !in uploads && old(uploads)[p].channel in closed &&
                activeStaging == old(activeStaging) - {old(uploads)[p].key} &&
                directories == (if activeStaging == map[] && opens then old(directories) * occupied else old(directories))
              else Now() == old(Now())
    {
      if p !in uploads || !uploads[p].Active? {
        return;
      }
      FinishKeepsInv(Now(), p, opens, occupied);
      assert UploadInv(Now(), p);
      var u := uploads[p];
      uploads := uploads - {p};
      if !(u.key in activeStaging && activeStaging[u.key] == u.channel) {
        return;
      }
      activeStaging, closed, stagingCleanupNeeded := activeStaging - {u.key}, closed + {u.channel}, true;
      if activeStaging == map[] && opens {
        directories, stagingCleanupNeeded := directories * occupied, false;
      }
    }
  }

  lemma GiveUpKeepsInv(g: Gate, p: nat)
    requires Inv(g) && p in g.uploads && g.uploads[p].Waiting?
    ensures Inv(g.(uploads := g.uploads - {p}))
  {
    var t := g.(uploads := g.uploads - {p});
    forall q
      ensures UploadInv(t, q)
    {
      assert UploadInv(g, q);
    }
    SameOwners(g, t);
  }

  lemma MakingKeepsInv(g: Gate, p: nat)
    requires Inv(g) && p in g.uploads && g.uploads[p].Active?
    ensures Inv(g.(directories := g.directories + {g.uploads[p].key}, uploads := g.uploads[p := g.uploads[p].(made := true)]))
  {
    var t := g.(directories := g.directories + {g.uploads[p].key}, uploads := g.uploads[p := g.uploads[p].(made := true)]);
    forall q
      ensures UploadInv(t, q)
    {
      assert UploadInv(g, q);
    }
    SameOwners(g, t);
  }

  lemma SameOwners(g: Gate, t: Gate)
    requires t.active == g.active && (forall key :: KeyInv(g, key)) && forall p, key :: Owns(t, p, key) <==> Owns(g, p, key)
    ensures forall key :: KeyInv(t, key)
  {
    forall key
      ensures KeyInv(t, key)
    {
      assert KeyInv(g, key);
      if key in t.active {
        var p :| Owns(g, p, key);
        assert Owns(t, p, key);
      }
    }
  }
}
