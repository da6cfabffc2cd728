/**
 * Startup reconciliation: before serving, the server lists the result store
 * and seeds one `SUCCESS` entry per listed key, under the job id read from
 * the key. Any exception (from the listing or from parsing a key) is caught
 * and ends the seeding; entries written before it stay.
 */
module Startup {
  import opened Wrappers
  import opened ObjectKeys
  import opened Jobs

  /** The job ids that the listed keys name (keys without '/' name none). */
  function NamedIds(keys: seq<string>): set<JobId>
  {
    set j | 0 <= j < |keys| && JobIdOf(keys[j]).Some? :: JobIdOf(keys[j]).value
  }

  /**
   * The registry after seeding from `keys` in order. A key without '/' makes
   * `split("/")[1]` raise, which ends the loop with the entries seeded so far.
   */
  function Seed(results: Results, keys: seq<string>): (r: Results)
    ensures results.Keys <= r.Keys
    ensures r.Keys <= results.Keys + NamedIds(keys)
    decreases |keys|
  {
    if keys == [] then results
    else
      match JobIdOf(keys[0])
      case None => results
      case Some(id) =>
        var r := Seed(results[id := Success(keys[0])], keys[1..]);
        assert forall x | x in NamedIds(keys[1..]) :: x in NamedIds(keys) by {
          forall x | x in NamedIds(keys[1..]) ensures x in NamedIds(keys) {
            var j :| 0 <= j < |keys[1..]| && JobIdOf(keys[1..][j]).Some? && JobIdOf(keys[1..][j]).value == x;
            assert keys[j + 1] == keys[1..][j];
          }
        }
        assert JobIdOf(keys[0]).value in NamedIds(keys);
        r
  }

  /** The registry after the whole startup block, whatever the listing gave. */
  function Reconciled(results: Results, listing: Listing): (r: Results)
    ensures results.Keys <= r.Keys
    ensures listing.ListFailed? || listing.contents.None? ==> r == results
    ensures listing.Listed? && listing.contents.Some? ==>
              r.Keys <= results.Keys + NamedIds(listing.contents.value)
    ensures listing.Listed? && listing.contents.Some? ==>
              forall id | id in results && id !in NamedIds(listing.contents.value) :: r[id] == results[id]
  {
    match listing
    case ListFailed(_) => results
    case Listed(None) => results
    case Listed(Some(keys)) =>
      assert forall id | id in results && id !in NamedIds(keys) :: Seed(results, keys)[id] == results[id] by {
        forall id | id in results && id !in NamedIds(keys)
          ensures Seed(results, keys)[id] == results[id]
        {
          forall j | 0 <= j < |keys| && JobIdOf(keys[j]).Some?
            ensures JobIdOf(keys[j]).value in NamedIds(keys)
          {
          }
          SeedUntouched(results, keys, id);
        }
      }
      Seed(results, keys)
  }

  /** Seeding from keys that all parse is seeding from the first part, then the rest. */
  lemma {:induction false} SeedAppend(results: Results, a: seq<string>, b: seq<string>)
    requires forall j | 0 <= j < |a| :: Slash in a[j]
    ensures Seed(results, a + b) == Seed(Seed(results, a), b)
    decreases |a|
  {
    if a != [] {
      var id := JobIdOf(a[0]).value;
      assert (a + b)[0] == a[0];
      assert (a + b)[1..] == a[1..] + b;
      SeedAppend(results[id := Success(a[0])], a[1..], b);
    } else {
      assert a + b == b;
    }
  }

  /** One more parsable key writes its entry on top of what the earlier keys seeded. */
  lemma SeedStep(results: Results, keys: seq<string>, i: nat)
    requires i < |keys|
    requires forall j | 0 <= j < i :: Slash in keys[j]
    requires Slash in keys[i]
    ensures Seed(results, keys[..i + 1])
         == Seed(results, keys[..i])[JobIdOf(keys[i]).value := Success(keys[i])]
  {
    assert keys[..i + 1] == keys[..i] + [keys[i]];
    SeedAppend(results, keys[..i], [keys[i]]);
    assert [keys[i]][1..] == [];
  }

  /** A key without '/' ends the seeding: later keys are not looked at. */
  lemma SeedStops(results: Results, keys: seq<string>, i: nat)
    requires i < |keys|
    requires forall j | 0 <= j < i :: Slash in keys[j]
    requires Slash !in keys[i]
    ensures Seed(results, keys) == Seed(results, keys[..i])
  {
    assert keys == keys[..i] + keys[i..];
    SeedAppend(results, keys[..i], keys[i..]);
  }

  /** An id that no listed key names keeps its entry, or its absence. */
  lemma {:induction false} SeedUntouched(results: Results, keys: seq<string>, id: JobId)
    requires forall j | 0 <= j < |keys| :: JobIdOf(keys[j]) != Some(id)
    ensures id in Seed(results, keys) <==> id in results
    ensures id in results ==> Seed(results, keys)[id] == results[id]
    decreases |keys|
  {
    if keys != [] && JobIdOf(keys[0]).Some? {
      var k := JobIdOf(keys[0]).value;
      assert k != id by { assert JobIdOf(keys[0]) != Some(id); }
      SeedUntouched(results[k := Success(keys[0])], keys[1..], id);
    }
  }

  /**
   * When the keys up to `i` all parse and no later key names the same id,
   * `keys[i]` is the entry that id ends up with: a later key for an id
   * overwrites an earlier one.
   */
  lemma SeedLastWins(results: Results, keys: seq<string>, i: nat)
    requires i < |keys|
    requires forall j | 0 <= j <= i :: Slash in keys[j]
    requires forall j | i < j < |keys| :: JobIdOf(keys[j]) != JobIdOf(keys[i])
    ensures JobIdOf(keys[i]).value in Seed(results, keys)
    ensures Seed(results, keys)[JobIdOf(keys[i]).value] == Success(keys[i])
  {
    var id := JobIdOf(keys[i]).value;
    assert keys == keys[..i + 1] + keys[i + 1..];
    SeedAppend(results, keys[..i + 1], keys[i + 1..]);
    SeedStep(results, keys, i);
    var rest := keys[i + 1..];
    forall j | 0 <= j < |rest| ensures JobIdOf(rest[j]) != Some(id) {
      assert rest[j] == keys[i + 1 + j];
    }
    SeedUntouched(Seed(results, keys[..i + 1]), rest, id);
  }

  /** Seeding keeps the registry well formed: each seeded key names its own id. */
  lemma {:induction false} SeedWellFormed(results: Results, keys: seq<string>)
    requires WellFormed(results)
    ensures WellFormed(Seed(results, keys))
    decreases |keys|
  {
    if keys != [] && JobIdOf(keys[0]).Some? {
      var id := JobIdOf(keys[0]).value;
      var next := results[id := Success(keys[0])];
      assert Consistent(id, Success(keys[0]));
      assert WellFormed(next);
      SeedWellFormed(next, keys[1..]);
    }
  }
}
