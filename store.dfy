/**
 * The registration loop of `lambda_handler` and the two services it
 * changes: the existence table (`get_partition`, `insert_partition`) and
 * the query service (`run_query`). `Run` is the reference definition of the
 * loop; the lemmas below state what one run does to the table and which
 * calls it makes, in which order.
 */
module PartitionStore {
  import opened Wrappers

  /** One call the loop makes to the outside world. */
  datatype Call =
    | PutItem(key: string)      // `insert_partition(partition_name)`
    | StartQuery(query: string) // `run_query(query, ...)`

  /** The existence table and every call made so far, oldest first. */
  datatype World = World(store: set<string>, log: seq<Call>)

  /** An (account id, region) pair of the loop. */
  type Pair = (string, string)

  /**
   * What stays fixed during one run: how a pair's partition key and its
   * statement are built (for one log type, table, bucket, prefix and date).
   */
  datatype Job = Job(key: Pair -> string, query: Pair -> string)

  /** The partition key of a pair. */
  function KeyOf(job: Job, p: Pair): string
  {
    job.key(p)
  }

  /** The statement submitted for a pair. */
  function QueryOf(job: Job, p: Pair): string
  {
    job.query(p)
  }

  /** Distinct pairs of `ps` get distinct statements. */
  predicate QueriesDistinguish(job: Job, ps: seq<Pair>)
  {
    forall a, b :: a in ps && b in ps && QueryOf(job, a) == QueryOf(job, b) ==> a == b
  }

  /** The inner loop's pairs for one account: its regions, in order. */
  function Row(accountId: string, regions: seq<string>): seq<Pair>
  {
    seq(|regions|, j requires 0 <= j < |regions| => (accountId, regions[j]))
  }

  /** The pairs the double loop visits: accounts outer, regions inner. */
  function Pairs(accounts: seq<string>, regions: seq<string>): seq<Pair>
    decreases |accounts|
  {
    if accounts == [] then []
    else Pairs(accounts[..|accounts| - 1], regions) + Row(accounts[|accounts| - 1], regions)
  }

  /**
   * One iteration of the inner loop. The key is registered unless its
   * lookup finds it; a lookup in `faults` fails with `ClientError`, which
   * `get_partition` swallows, so the key then counts as absent.
   */
  function Step(job: Job, faults: set<string>, w: World, p: Pair): World
  {
    var k := KeyOf(job, p);
    if k in w.store && k !in faults then w
    else World(w.store + {k}, w.log + [PutItem(k), StartQuery(QueryOf(job, p))])
  }

  /** The loop over `ps`, one `Step` per pair, in order. */
  function Run(job: Job, faults: set<string>, w: World, ps: seq<Pair>): World
    decreases |ps|
  {
    if ps == [] then w else Step(job, faults, Run(job, faults, w, ps[..|ps| - 1]), ps[|ps| - 1])
  }

  /** The keys of a sequence of pairs. */
  function Keys(job: Job, ps: seq<Pair>): set<string>
    decreases |ps|
  {
    if ps == [] then {} else Keys(job, ps[..|ps| - 1]) + {KeyOf(job, ps[|ps| - 1])}
  }

  /**
   * The pairs a run registers, in order: each pair whose key is neither in
   * the table beforehand nor the key of an earlier pair, plus each pair
   * whose lookup fails.
   */
  function Registered(job: Job, faults: set<string>, store: set<string>, ps: seq<Pair>): seq<Pair>
    decreases |ps|
  {
    if ps == [] then []
    else
      var init, p := ps[..|ps| - 1], ps[|ps| - 1];
      var k := KeyOf(job, p);
      if k in store + Keys(job, init) && k !in faults then Registered(job, faults, store, init)
      else Registered(job, faults, store, init) + [p]
  }

  /** The calls made for registered pairs: for each, the insert of its key, then its statement. */
  function Effects(job: Job, rs: seq<Pair>): seq<Call>
    decreases |rs|
  {
    if rs == [] then []
    else Effects(job, rs[..|rs| - 1]) + [PutItem(KeyOf(job, rs[|rs| - 1])), StartQuery(QueryOf(job, rs[|rs| - 1]))]
  }

  /** The statements submitted in a call log, in order. */
  function Submitted(log: seq<Call>): seq<string>
    decreases |log|
  {
    if log == [] then []
    else Submitted(log[..|log| - 1]) + (if log[|log| - 1].StartQuery? then [log[|log| - 1].query] else [])
  }

  // ---------------------------------------------------------------- the pairs

  /** The loop visits exactly |accounts| × |regions| pairs. */
  lemma {:induction false} PairsLength(accounts: seq<string>, regions: seq<string>)
    ensures |Pairs(accounts, regions)| == |accounts| * |regions|
    decreases |accounts|
  {
    if accounts != [] {
      PairsLength(accounts[..|accounts| - 1], regions);
      assert |accounts| * |regions| == (|accounts| - 1) * |regions| + |regions|;
    }
  }

  /** One more row of `m` entries ends below `(i + 1) * m`. */
  lemma RowBound(i: nat, j: nat, m: nat, n: nat)
    requires j < m && i < n
    ensures i * m + j < n * m
  {
    assert (i + 1) * m == i * m + m;
    assert (i + 1) * m <= n * m;
  }

  /** Account `i` with region `j` is visited at position `i * |regions| + j`. */
  lemma {:induction false} PairsIndex(accounts: seq<string>, regions: seq<string>, i: nat, j: nat)
    requires i < |accounts| && j < |regions|
    ensures i * |regions| + j < |Pairs(accounts, regions)|
    ensures Pairs(accounts, regions)[i * |regions| + j] == (accounts[i], regions[j])
    decreases |accounts|
  {
    var n, m := |accounts|, |regions|;
    var init := accounts[..n - 1];
    PairsLength(accounts, regions);
    PairsLength(init, regions);
    RowBound(i, j, m, n);
    if i < n - 1 {
      PairsIndex(init, regions, i, j);
      RowBound(i, j, m, n - 1);
      assert init[i] == accounts[i];
    } else {
      assert (n - 1) * m + j == i * m + j;
    }
  }

  /** A pair is in an account's row exactly when it is that account with one of the regions. */
  lemma RowMembership(accountId: string, regions: seq<string>, p: Pair)
    ensures p in Row(accountId, regions) <==> p.0 == accountId && p.1 in regions
  {
    if p.0 == accountId && p.1 in regions {
      var j :| 0 <= j < |regions| && regions[j] == p.1;
      assert Row(accountId, regions)[j] == p;
    }
  }

  /** A pair is visited exactly when its account is listed and its region is listed. */
  lemma {:induction false} PairsMembership(accounts: seq<string>, regions: seq<string>, p: Pair)
    ensures p in Pairs(accounts, regions) <==> p.0 in accounts && p.1 in regions
    decreases |accounts|
  {
    if accounts != [] {
      var init := accounts[..|accounts| - 1];
      PairsMembership(init, regions, p);
      assert accounts == init + [accounts[|accounts| - 1]];
      RowMembership(accounts[|accounts| - 1], regions, p);
    }
  }

  /** The key of every pair of `ps` is in `Keys(ps)`, and nothing else is. */
  lemma {:induction false} KeysMembership(job: Job, ps: seq<Pair>, k: string)
    ensures k in Keys(job, ps) <==> exists i :: 0 <= i < |ps| && KeyOf(job, ps[i]) == k
    decreases |ps|
  {
    if ps != [] {
      var init := ps[..|ps| - 1];
      KeysMembership(job, init, k);
      if k in Keys(job, init) {
        var i :| 0 <= i < |init| && KeyOf(job, init[i]) == k;
        assert ps[i] == init[i];
      }
      if exists i :: 0 <= i < |ps| && KeyOf(job, ps[i]) == k {
        var i :| 0 <= i < |ps| && KeyOf(job, ps[i]) == k;
        if i < |init| {
          assert init[i] == ps[i];
        }
      }
    }
  }

  // ---------------------------------------------------------------- one run

  /** Appending a pair runs one more step. */
  lemma RunAppend(job: Job, faults: set<string>, w: World, ps: seq<Pair>, p: Pair)
    ensures Run(job, faults, w, ps + [p]) == Step(job, faults, Run(job, faults, w, ps), p)
  {
    assert (ps + [p])[..|ps|] == ps;
  }

  /** One more region of the inner loop is one more step. */
  lemma RunRowStep(job: Job, faults: set<string>, w: World, done: seq<Pair>,
                   accountId: string, regions: seq<string>, j: nat)
    requires j < |regions|
    ensures Run(job, faults, w, done + Row(accountId, regions[..j + 1]))
         == Step(job, faults, Run(job, faults, w, done + Row(accountId, regions[..j])), (accountId, regions[j]))
  {
    var p := (accountId, regions[j]);
    assert Row(accountId, regions[..j + 1]) == Row(accountId, regions[..j]) + [p];
    assert done + Row(accountId, regions[..j + 1]) == (done + Row(accountId, regions[..j])) + [p];
    RunAppend(job, faults, w, done + Row(accountId, regions[..j]), p);
  }

  /** The inner loop starts from the pairs of the accounts before, and ends with one more account's row. */
  lemma PairsRow(accounts: seq<string>, regions: seq<string>, i: nat)
    requires i < |accounts|
    ensures Pairs(accounts[..i], regions) + Row(accounts[i], regions[..0]) == Pairs(accounts[..i], regions)
    ensures Pairs(accounts[..i], regions) + Row(accounts[i], regions[..|regions|]) == Pairs(accounts[..i + 1], regions)
  {
    assert Row(accounts[i], regions[..0]) == [];
    assert regions[..|regions|] == regions;
    assert accounts[..i + 1][..i] == accounts[..i];
  }

  /**
   * A run adds exactly the keys of its pairs to the table and appends to the
   * log exactly the calls for its registered pairs.
   */
  lemma {:induction false} RunShape(job: Job, faults: set<string>, w: World, ps: seq<Pair>)
    ensures Run(job, faults, w, ps)
         == World(w.store + Keys(job, ps), w.log + Effects(job, Registered(job, faults, w.store, ps)))
    decreases |ps|
  {
    if ps != [] {
      var init, p := ps[..|ps| - 1], ps[|ps| - 1];
      var k := KeyOf(job, p);
      var before := Run(job, faults, w, init);
      var rs := Registered(job, faults, w.store, init);
      RunShape(job, faults, w, init);
      assert before == World(w.store + Keys(job, init), w.log + Effects(job, rs));
      assert Keys(job, ps) == Keys(job, init) + {k};
      if k in w.store + Keys(job, init) && k !in faults {
        assert Registered(job, faults, w.store, ps) == rs;
        assert w.store + Keys(job, ps) == w.store + Keys(job, init);
      } else {
        var calls := [PutItem(k), StartQuery(QueryOf(job, p))];
        assert Registered(job, faults, w.store, ps) == rs + [p];
        assert (rs + [p])[..|rs|] == rs;
        assert Effects(job, rs + [p]) == Effects(job, rs) + calls;
        assert w.log + Effects(job, rs) + calls == w.log + (Effects(job, rs) + calls);
        assert w.store + Keys(job, init) + {k} == w.store + Keys(job, ps);
      }
    }
  }

  /** For each registered pair the insert of its key comes first and its statement right after. */
  lemma {:induction false} EffectsAt(job: Job, rs: seq<Pair>)
    ensures |Effects(job, rs)| == 2 * |rs|
    ensures forall j :: 0 <= j < |rs| ==>
      Effects(job, rs)[2 * j] == PutItem(KeyOf(job, rs[j])) &&
      Effects(job, rs)[2 * j + 1] == StartQuery(QueryOf(job, rs[j]))
    decreases |rs|
  {
    if rs != [] {
      var init := rs[..|rs| - 1];
      EffectsAt(job, init);
      forall j | 0 <= j < |init| ensures init[j] == rs[j] { }
    }
  }

  /** The statements of a concatenated log are those of its parts. */
  lemma {:induction false} SubmittedAppend(a: seq<Call>, b: seq<Call>)
    ensures Submitted(a + b) == Submitted(a) + Submitted(b)
    decreases |b|
  {
    if b == [] {
      assert a + b == a;
    } else {
      var init := b[..|b| - 1];
      assert (a + b)[..|a + b| - 1] == a + init;
      SubmittedAppend(a, init);
    }
  }

  /** The insert of a key followed by a statement submits that statement. */
  lemma SubmittedOfPair(key: string, query: string)
    ensures Submitted([PutItem(key), StartQuery(query)]) == [query]
  {
    var one: seq<Call> := [PutItem(key)];
    assert [PutItem(key), StartQuery(query)][..1] == one;
    assert one[..0] == [];
    assert Submitted(one) == [];
  }

  /** Appending an insert and a submission to a log adds that one statement. */
  lemma SubmittedSnoc(log: seq<Call>, key: string, query: string)
    ensures Submitted(log + [PutItem(key), StartQuery(query)]) == Submitted(log) + [query]
  {
    SubmittedAppend(log, [PutItem(key), StartQuery(query)]);
    SubmittedOfPair(key, query);
  }

  /** The statements of the calls for registered pairs are one per pair, in order. */
  lemma {:induction false} SubmittedEffects(job: Job, rs: seq<Pair>)
    ensures |Submitted(Effects(job, rs))| == |rs|
    ensures forall j :: 0 <= j < |rs| ==> Submitted(Effects(job, rs))[j] == QueryOf(job, rs[j])
    decreases |rs|
  {
    if rs != [] {
      var init, p := rs[..|rs| - 1], rs[|rs| - 1];
      var e := Effects(job, init);
      SubmittedEffects(job, init);
      SubmittedSnoc(e, KeyOf(job, p), QueryOf(job, p));
      var sub := Submitted(Effects(job, rs));
      assert sub == Submitted(e) + [QueryOf(job, p)];
      forall j | 0 <= j < |rs| ensures sub[j] == QueryOf(job, rs[j]) {
        if j < |init| {
          assert init[j] == rs[j];
        }
      }
    }
  }

  /**
   * Every registered pair is one of the run's pairs, and its key was not in
   * the table beforehand or its lookup failed: a key found by its lookup is
   * never inserted and its statement never submitted.
   */
  lemma {:induction false} RegisteredOnlyAbsent(job: Job, faults: set<string>, store: set<string>, ps: seq<Pair>)
    ensures forall j :: 0 <= j < |Registered(job, faults, store, ps)| ==>
      Registered(job, faults, store, ps)[j] in ps &&
      (KeyOf(job, Registered(job, faults, store, ps)[j]) !in store ||
       KeyOf(job, Registered(job, faults, store, ps)[j]) in faults)
    decreases |ps|
  {
    if ps != [] {
      var init := ps[..|ps| - 1];
      RegisteredOnlyAbsent(job, faults, store, init);
      assert forall x :: x in init ==> x in ps;
    }
  }

  /**
   * When no lookup of the run fails, the keys a run registers are exactly
   * the run's keys that were not in the table beforehand.
   */
  lemma {:induction false} RegisteredKeys(job: Job, faults: set<string>, store: set<string>, ps: seq<Pair>)
    requires Keys(job, ps) !! faults
    ensures Keys(job, Registered(job, faults, store, ps)) == Keys(job, ps) - store
    decreases |ps|
  {
    if ps != [] {
      var init, p := ps[..|ps| - 1], ps[|ps| - 1];
      var k := KeyOf(job, p);
      var prev := Registered(job, faults, store, init);
      assert Keys(job, ps) == Keys(job, init) + {k};
      RegisteredKeys(job, faults, store, init);
      if k !in store + Keys(job, init) {
        var rs := prev + [p];
        assert rs[..|prev|] == prev;
        assert Keys(job, rs) == Keys(job, prev) + {k};
      }
    }
  }

  /** When no lookup of the run fails, a run registers each key at most once. */
  lemma {:induction false} RegisteredOnce(job: Job, faults: set<string>, store: set<string>, ps: seq<Pair>)
    requires Keys(job, ps) !! faults
    ensures forall i, j :: 0 <= i < j < |Registered(job, faults, store, ps)| ==>
      KeyOf(job, Registered(job, faults, store, ps)[i]) != KeyOf(job, Registered(job, faults, store, ps)[j])
    decreases |ps|
  {
    if ps != [] {
      var init, p := ps[..|ps| - 1], ps[|ps| - 1];
      var k := KeyOf(job, p);
      var prev := Registered(job, faults, store, init);
      assert Keys(job, ps) == Keys(job, init) + {k};
      RegisteredOnce(job, faults, store, init);
      if k !in store + Keys(job, init) {
        var rs := prev + [p];
        assert Registered(job, faults, store, ps) == rs;
        RegisteredKeys(job, faults, store, init);
        forall i, j | 0 <= i < j < |rs| ensures KeyOf(job, rs[i]) != KeyOf(job, rs[j]) {
          assert rs[i] == prev[i];
          if j < |prev| {
            assert rs[j] == prev[j];
          } else {
            assert rs[j] == p;
            KeysMembership(job, prev, KeyOf(job, prev[i]));
          }
        }
      }
    }
  }

  /** When no lookup of the run fails, a run registers as many pairs as there were absent keys. */
  lemma {:induction false} RegisteredCount(job: Job, faults: set<string>, store: set<string>, ps: seq<Pair>)
    requires Keys(job, ps) !! faults
    ensures |Registered(job, faults, store, ps)| == |Keys(job, ps) - store|
    decreases |ps|
  {
    if ps != [] {
      var init, p := ps[..|ps| - 1], ps[|ps| - 1];
      var k := KeyOf(job, p);
      assert Keys(job, ps) == Keys(job, init) + {k};
      RegisteredCount(job, faults, store, init);
      var absent := Keys(job, init) - store;
      if k in store + Keys(job, init) {
        assert Registered(job, faults, store, ps) == Registered(job, faults, store, init);
        assert Keys(job, ps) - store == absent;
      } else {
        assert |Registered(job, faults, store, ps)| == |Registered(job, faults, store, init)| + 1;
        assert k !in absent;
        assert Keys(job, ps) - store == absent + {k};
        assert |absent + {k}| == |absent| + 1;
      }
    }
  }

  /** When no lookup fails and statements tell pairs apart, the registered pairs' statements are pairwise distinct. */
  lemma RegisteredQueriesDistinct(job: Job, faults: set<string>, store: set<string>, ps: seq<Pair>)
    requires Keys(job, ps) !! faults
    requires QueriesDistinguish(job, ps)
    ensures forall i, j :: 0 <= i < j < |Registered(job, faults, store, ps)| ==>
      QueryOf(job, Registered(job, faults, store, ps)[i]) != QueryOf(job, Registered(job, faults, store, ps)[j])
  {
    var rs := Registered(job, faults, store, ps);
    RegisteredOnce(job, faults, store, ps);
    RegisteredOnlyAbsent(job, faults, store, ps);
    forall i, j | 0 <= i < j < |rs| ensures QueryOf(job, rs[i]) != QueryOf(job, rs[j]) {
      assert rs[i] in ps && rs[j] in ps;
      assert KeyOf(job, rs[i]) != KeyOf(job, rs[j]);
    }
  }

  // ---------------------------------------------------------------- what the loop promises

  /**
   * After the loop every key of accounts × regions is in the table and no
   * key that was there before has gone; the log only grows.
   */
  lemma RunCovers(job: Job, faults: set<string>, w: World, accounts: seq<string>, regions: seq<string>)
    ensures var after := Run(job, faults, w, Pairs(accounts, regions));
      && w.store <= after.store
      && (forall i, j :: 0 <= i < |accounts| && 0 <= j < |regions| ==>
            KeyOf(job, (accounts[i], regions[j])) in after.store)
      && w.log <= after.log
  {
    var ps := Pairs(accounts, regions);
    RunShape(job, faults, w, ps);
    forall i, j | 0 <= i < |accounts| && 0 <= j < |regions|
      ensures KeyOf(job, (accounts[i], regions[j])) in Keys(job, ps)
    {
      PairKeyVisited(job, accounts, regions, i, j);
    }
  }

  /** The key of account `i` with region `j` is among the loop's keys. */
  lemma PairKeyVisited(job: Job, accounts: seq<string>, regions: seq<string>, i: int, j: int)
    requires 0 <= i < |accounts| && 0 <= j < |regions|
    ensures KeyOf(job, (accounts[i], regions[j])) in Keys(job, Pairs(accounts, regions))
  {
    var ps := Pairs(accounts, regions);
    PairsIndex(accounts, regions, i, j);
    var n := i * |regions| + j;
    assert 0 <= n < |ps| && ps[n] == (accounts[i], regions[j]);
    KeysMembership(job, ps, KeyOf(job, ps[n]));
  }

  /** No insert of `k` is among the calls for pairs whose keys all differ from `k`. */
  lemma {:induction false} EffectsWithoutKey(job: Job, rs: seq<Pair>, k: string)
    requires forall j :: 0 <= j < |rs| ==> KeyOf(job, rs[j]) != k
    ensures PutItem(k) !in Effects(job, rs)
    decreases |rs|
  {
    if rs != [] {
      var init := rs[..|rs| - 1];
      forall j | 0 <= j < |init| ensures KeyOf(job, init[j]) != k {
        assert init[j] == rs[j];
      }
      EffectsWithoutKey(job, init, k);
    }
  }

  /**
   * The calls a run appends come in pairs: for each registered pair the
   * insert of its key, then its statement; the log before is kept.
   */
  lemma RunOrdersCalls(job: Job, faults: set<string>, w: World, ps: seq<Pair>)
    ensures var after, rs := Run(job, faults, w, ps), Registered(job, faults, w.store, ps);
      && |after.log| == |w.log| + 2 * |rs|
      && after.log[..|w.log|] == w.log
      && (forall j :: 0 <= j < |rs| ==>
            after.log[|w.log| + 2 * j] == PutItem(KeyOf(job, rs[j])) &&
            after.log[|w.log| + 2 * j + 1] == StartQuery(QueryOf(job, rs[j])))
  {
    var rs := Registered(job, faults, w.store, ps);
    RunShape(job, faults, w, ps);
    EffectsAt(job, rs);
  }

  /**
   * A key in the table beforehand whose lookup succeeds is never inserted by
   * the run, and no statement is submitted for it: every registered pair has
   * a key that was absent or whose lookup failed.
   */
  lemma RunSkipsPresent(job: Job, faults: set<string>, w: World, ps: seq<Pair>, k: string)
    requires k in w.store && k !in faults
    ensures var after, rs := Run(job, faults, w, ps), Registered(job, faults, w.store, ps);
      && (forall i :: |w.log| <= i < |after.log| ==> after.log[i] != PutItem(k))
      && (forall j :: 0 <= j < |rs| ==> KeyOf(job, rs[j]) != k)
  {
    var rs := Registered(job, faults, w.store, ps);
    RunShape(job, faults, w, ps);
    RegisteredOnlyAbsent(job, faults, w.store, ps);
    EffectsWithoutKey(job, rs, k);
    var after := Run(job, faults, w, ps);
    forall i | |w.log| <= i < |after.log| ensures after.log[i] != PutItem(k) {
      assert after.log[i] == Effects(job, rs)[i - |w.log|];
    }
  }

  /**
   * When no lookup fails, a run submits exactly one statement per key of
   * accounts × regions that was absent beforehand.
   */
  lemma RunSubmitsAbsent(job: Job, faults: set<string>, w: World, ps: seq<Pair>)
    requires Keys(job, ps) !! faults
    ensures |Submitted(Run(job, faults, w, ps).log)| == |Submitted(w.log)| + |Keys(job, ps) - w.store|
  {
    var rs := Registered(job, faults, w.store, ps);
    RunShape(job, faults, w, ps);
    SubmittedAppend(w.log, Effects(job, rs));
    SubmittedEffects(job, rs);
    RegisteredCount(job, faults, w.store, ps);
  }

  /**
   * When no lookup fails and statements tell pairs apart, the statements a
   * run submits are pairwise distinct.
   */
  lemma RunSubmitsNoDuplicate(job: Job, faults: set<string>, w: World, ps: seq<Pair>)
    requires Keys(job, ps) !! faults
    requires QueriesDistinguish(job, ps)
    ensures var s, n := Submitted(Run(job, faults, w, ps).log), |Submitted(w.log)|;
      forall i, j :: n <= i < j < |s| ==> s[i] != s[j]
  {
    var rs := Registered(job, faults, w.store, ps);
    RunShape(job, faults, w, ps);
    SubmittedAppend(w.log, Effects(job, rs));
    SubmittedEffects(job, rs);
    RegisteredQueriesDistinct(job, faults, w.store, ps);
  }

  /**
   * A second run with the same pairs, starting from the table the first run
   * left, changes nothing and calls nothing, provided no lookup fails.
   */
  lemma RunIdempotent(job: Job, faults: set<string>, w: World, ps: seq<Pair>)
    requires Keys(job, ps) !! faults
    ensures var once := Run(job, faults, w, ps);
      Run(job, faults, once, ps) == once
  {
    var once := Run(job, faults, w, ps);
    RunShape(job, faults, w, ps);
    RunShape(job, faults, once, ps);
    RegisteredCount(job, faults, once.store, ps);
    assert Keys(job, ps) - once.store == {};
    var rs := Registered(job, faults, once.store, ps);
    assert rs == [];
    assert once.log + Effects(job, rs) == once.log;
  }

  // ---------------------------------------------------------------- the services

  /** The existence table and the query service, as the loop changes them. */
  class Services {
    /** The partition names stored in the existence table. */
    var partitions: set<string>
    /** Every insert and submission made so far, oldest first. */
    var calls: seq<Call>
    /** The names whose lookup raises `ClientError` during this run. */
    const faults: set<string>

    constructor (partitions: set<string>, faults: set<string>)
      ensures this.partitions == partitions && this.calls == [] && this.faults == faults
    {
      this.partitions := partitions;
      this.calls := [];
      this.faults := faults;
    }

    /** `get_partition`: the stored item, or `None` when it is absent or the lookup fails. */
    method GetPartition(partitionName: string) returns (item: Option<string>)
      ensures item.Some? <==> partitionName in partitions && partitionName !in faults
      ensures item.Some? ==> item.value == partitionName
    {
      if partitionName in faults || partitionName !in partitions {
        item := None;
      } else {
        item := Some(partitionName);
      }
    }

    /** `insert_partition`: stores the name and records the call. */
    method InsertPartition(partitionName: string)
      modifies this
      ensures partitions == old(partitions) + {partitionName}
      ensures calls == old(calls) + [PutItem(partitionName)]
    {
      partitions := partitions + {partitionName};
      calls := calls + [PutItem(partitionName)];
    }

    /** `run_query`: submits the statement; the table is untouched. */
    method RunQuery(query: string)
      modifies this
      ensures partitions == old(partitions)
      ensures calls == old(calls) + [StartQuery(query)]
    {
      calls := calls + [StartQuery(query)];
    }
  }
}
