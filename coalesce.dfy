/**
 * `persistentCoalesce(...args)` of website/js/batch.js: return the first
 * non-null argument, after recording in a table that lives as long as the
 * program that every later non-null argument is an alias of it, and after
 * following the table's redirects from it to a value that maps to itself.
 * Following stops with a throw after more than 1000 hops.
 */
module Coalescing {
  import opened Wrappers

  /** The number of hops after which the roll-up gives up. */
  const MAX_HOPS: nat := 1000

  /** What a call gives back: its result, or the throw of the roll-up with the value reached and the table. */
  datatype Outcome = Returned(value: Option<string>) | FatalLoop(at: string, table: map<string, string>)

  /** The first non-null argument, or null when there is none. */
  function FirstOk(args: seq<Option<string>>): (r: Option<string>)
    ensures r.None? <==> forall i :: 0 <= i < |args| ==> args[i].None?
    ensures r.Some? ==> r in args
  {
    if args == [] then None else if args[0].Some? then args[0] else FirstOk(args[1..])
  }

  /** The first non-null argument is the one at the first present position. */
  lemma {:induction false} FirstOkAt(args: seq<Option<string>>, i: nat)
    requires i < |args| && args[i].Some?
    requires forall j :: 0 <= j < i ==> args[j].None?
    ensures FirstOk(args) == args[i]
  {
    if i > 0 {
      assert args[0].None?;
      FirstOkAt(args[1..], i - 1);
    }
  }

  /** Appending an argument changes the first non-null one only if there was none. */
  lemma {:induction false} FirstOkSnoc(args: seq<Option<string>>, x: Option<string>)
    ensures FirstOk(args + [x]) == if FirstOk(args).Some? then FirstOk(args) else x
  {
    if args != [] {
      assert (args + [x])[0] == args[0];
      assert (args + [x])[1..] == args[1..] + [x];
      FirstOkSnoc(args[1..], x);
    }
  }

  /** `arg` is recorded as an alias of `first`: set if absent, set if not `first` itself. */
  function Step(table: map<string, string>, first: string, arg: Option<string>): (t: map<string, string>)
    ensures arg.None? ==> t == table
    ensures arg.Some? ==> t.Keys == table.Keys + {arg.value}
  {
    match arg
    case None => table
    case Some(a) => if a !in table || first != a then table[a := first] else table
  }

  /**
   * A recorded argument maps to `first`, unless it is `first` itself and
   * already had an entry, which it keeps; every other entry is unchanged.
   */
  lemma StepValues(table: map<string, string>, first: string, arg: Option<string>)
    ensures var t := Step(table, first, arg);
      && (arg.Some? && (arg.value != first || arg.value !in table) ==> t[arg.value] == first)
      && (arg.Some? && arg.value == first && arg.value in table ==> t[arg.value] == table[arg.value])
      && (forall k :: k in table && (arg.None? || k != arg.value) ==> t[k] == table[k])
  {
  }

  /** The table after every argument of `args` was recorded as an alias of `first`, left to right. */
  function Redirect(table: map<string, string>, first: string, args: seq<Option<string>>): (t: map<string, string>)
    ensures table.Keys <= t.Keys
    ensures forall i :: 0 <= i < |args| && args[i].Some? ==> args[i].value in t
  {
    if args == [] then table
    else Step(Redirect(table, first, args[..|args| - 1]), first, args[|args| - 1])
  }

  /** The table after the scan of `persistentCoalesce(...args)`. */
  function Record(table: map<string, string>, args: seq<Option<string>>): (t: map<string, string>)
    ensures FirstOk(args).None? ==> t == table
    ensures table.Keys <= t.Keys
    ensures forall i :: 0 <= i < |args| && args[i].Some? ==> args[i].value in t
  {
    match FirstOk(args)
    case None => table
    case Some(f) => Redirect(table, f, args)
  }

  /** One more iteration of the scan loop, stated on prefixes of `args`. */
  lemma ScanPrefix(table: map<string, string>, args: seq<Option<string>>, i: nat)
    requires i < |args|
    ensures FirstOk(args[..i + 1]) == if FirstOk(args[..i]).Some? then FirstOk(args[..i]) else args[i]
    ensures Record(table, args[..i + 1]) ==
      match FirstOk(args[..i + 1])
      case None => table
      case Some(f) => Step(Record(table, args[..i]), f, args[i])
  {
    assert args[..i + 1] == args[..i] + [args[i]];
    FirstOkSnoc(args[..i], args[i]);
    RecordSnoc(table, args[..i], args[i]);
  }

  /** Recording only null arguments changes nothing, whatever the first value. */
  lemma {:induction false} RedirectNulls(table: map<string, string>, first: string, args: seq<Option<string>>)
    requires forall i :: 0 <= i < |args| ==> args[i].None?
    ensures Redirect(table, first, args) == table
  {
    if args != [] {
      RedirectNulls(table, first, args[..|args| - 1]);
    }
  }

  /** The scan, one argument further: the step the loop body takes. */
  lemma RecordSnoc(table: map<string, string>, args: seq<Option<string>>, x: Option<string>)
    ensures Record(table, args + [x]) ==
      match FirstOk(args + [x])
      case None => table
      case Some(f) => Step(Record(table, args), f, x)
  {
    var s := args + [x];
    assert s[..|s| - 1] == args;
    FirstOkSnoc(args, x);
    if FirstOk(args).None? {
      RedirectNulls(table, x.GetOr(""), args);
    }
  }

  /**
   * The effect of the scan on one key `k`, for first value `first`: the key
   * is present iff it was or it is an argument; an argument other than
   * `first` now maps to `first`; `first` keeps its entry, or maps to itself
   * if it had none; every other key keeps its value.
   */
  lemma {:induction false} RedirectAt(table: map<string, string>, first: string, args: seq<Option<string>>, k: string)
    ensures k in Redirect(table, first, args) <==> k in table || Some(k) in args
    ensures k in Redirect(table, first, args) ==>
      Redirect(table, first, args)[k] ==
        if Some(k) in args && (k != first || k !in table) then first else table[k]
  {
    if args != [] {
      var prefix := args[..|args| - 1];
      RedirectAt(table, first, prefix, k);
      assert args == prefix + [args[|args| - 1]];
    }
  }

  /**
   * What a call leaves in the table, key by key. With only null arguments
   * nothing changes. Otherwise, with `f` the first non-null argument, every
   * other non-null argument now maps to `f`, `f` keeps its entry or gets a
   * self-entry, no other key changes and no key is removed.
   */
  lemma RecordAt(table: map<string, string>, args: seq<Option<string>>, k: string)
    ensures FirstOk(args).None? ==> Record(table, args) == table
    ensures FirstOk(args).Some? ==>
      var f := FirstOk(args).value;
      && (k in Record(table, args) <==> k in table || Some(k) in args)
      && (Some(k) in args && k != f ==> Record(table, args)[k] == f)
      && (k == f ==> Record(table, args)[k] == if f in table then table[f] else f)
      && (k in table && Some(k) !in args ==> Record(table, args)[k] == table[k])
  {
    if FirstOk(args).Some? {
      RedirectAt(table, FirstOk(args).value, args, k);
    }
  }

  /** Every value stored in the table is itself a key. */
  ghost predicate ValuesAreKeys(table: map<string, string>) {
    forall k :: k in table ==> table[k] in table
  }

  /** The scan keeps every value a key: the only value it stores is the first argument, which it makes a key. */
  lemma RecordKeepsValuesAreKeys(table: map<string, string>, args: seq<Option<string>>)
    requires ValuesAreKeys(table)
    ensures ValuesAreKeys(Record(table, args))
  {
    var t := Record(table, args);
    if FirstOk(args).Some? {
      var f := FirstOk(args).value;
      RecordAt(table, args, f);
      forall k | k in t ensures t[k] in t {
        RecordAt(table, args, k);
        if k in table {
          RecordAt(table, args, table[k]);
        }
      }
    }
  }

  /** `v` maps to itself or to nothing: the roll-up stops there. */
  predicate IsRoot(table: map<string, string>, v: string) {
    v !in table || table[v] == v
  }

  /** Where `k` hops of the roll-up lead from `v` (a root is never left). */
  function Walk(table: map<string, string>, v: string, k: nat): (end: string)
    ensures end == v || end in table.Values
    decreases k
  {
    if k == 0 || v !in table then v else Walk(table, table[v], k - 1)
  }

  /** `a + b` hops are `a` hops, then `b` more. */
  lemma {:induction false} WalkSplit(table: map<string, string>, v: string, a: nat, b: nat)
    ensures Walk(table, v, a + b) == Walk(table, Walk(table, v, a), b)
    decreases a
  {
    if a > 0 && v in table {
      WalkSplit(table, table[v], a - 1, b);
    }
  }

  /** Hopping from a root stays at it. */
  lemma {:induction false} WalkFromRoot(table: map<string, string>, r: string, k: nat)
    requires IsRoot(table, r)
    ensures Walk(table, r, k) == r
    decreases k
  {
    if k > 0 && r in table {
      WalkFromRoot(table, r, k - 1);
    }
  }

  /** When every value is a key, hopping from a key stays among the keys. */
  lemma {:induction false} WalkInKeys(table: map<string, string>, v: string, k: nat)
    requires ValuesAreKeys(table) && v in table
    ensures Walk(table, v, k) in table
    decreases k
  {
    if k > 0 {
      WalkInKeys(table, table[v], k - 1);
    }
  }

  /**
   * The roll-up from `first`: the root reached within `MAX_HOPS` hops, or,
   * when there is none, the throw on hop `MAX_HOPS + 1` with the value it
   * reached and the table. A null first value is returned as it is.
   */
  function Resolve(table: map<string, string>, first: Option<string>): (r: Outcome)
    ensures r == Returned(None) <==> first.None?
    ensures r.Returned? && r.value.Some? ==> IsRoot(table, r.value.value)
    ensures r.FatalLoop? ==> r.table == table && r.at in table.Values
  {
    match first
    case None => Returned(None)
    case Some(v) =>
      var end := Walk(table, v, MAX_HOPS);
      if IsRoot(table, end) then Returned(Some(end)) else FatalLoop(table[end], table)
  }

  /** The roll-up returns iff a root is reached in at most `MAX_HOPS` hops, and then returns that root. */
  lemma ResolveReturnsIff(table: map<string, string>, v: string)
    ensures Resolve(table, Some(v)).Returned? <==>
      exists k :: 0 <= k <= MAX_HOPS && IsRoot(table, Walk(table, v, k))
    ensures forall k :: 0 <= k <= MAX_HOPS && IsRoot(table, Walk(table, v, k)) ==>
      Resolve(table, Some(v)) == Returned(Some(Walk(table, v, k)))
  {
    forall k | 0 <= k <= MAX_HOPS && IsRoot(table, Walk(table, v, k))
      ensures Resolve(table, Some(v)) == Returned(Some(Walk(table, v, k)))
    {
      ResolveAtRoot(table, v, k);
    }
    if Resolve(table, Some(v)).Returned? {
      RootWithin(table, v, MAX_HOPS);
    }
  }

  /** A root reached within the cap is what the roll-up returns. */
  lemma ResolveAtRoot(table: map<string, string>, v: string, k: nat)
    requires k <= MAX_HOPS && IsRoot(table, Walk(table, v, k))
    ensures Resolve(table, Some(v)) == Returned(Some(Walk(table, v, k)))
  {
    WalkSplit(table, v, k, MAX_HOPS - k);
    WalkFromRoot(table, Walk(table, v, k), MAX_HOPS - k);
  }

  /** Without a root after `MAX_HOPS` hops, the roll-up throws with the value reached on hop `MAX_HOPS + 1`. */
  lemma ResolvePastCap(table: map<string, string>, v: string)
    requires !IsRoot(table, Walk(table, v, MAX_HOPS))
    ensures Resolve(table, Some(v)) == FatalLoop(Walk(table, v, MAX_HOPS + 1), table)
  {
    WalkSplit(table, v, MAX_HOPS, 1);
  }

  lemma RootWithin(table: map<string, string>, v: string, k: nat)
    requires k <= MAX_HOPS && IsRoot(table, Walk(table, v, k))
    ensures exists j :: 0 <= j <= MAX_HOPS && IsRoot(table, Walk(table, v, j))
  {
  }

  /**
   * A call's result: null iff every argument is null; otherwise, from a
   * table whose values are keys, a normal result `r` is a key with
   * `table[r] == r`, in the table the call leaves behind.
   */
  lemma CoalesceResult(table: map<string, string>, args: seq<Option<string>>)
    requires ValuesAreKeys(table)
    ensures Resolve(Record(table, args), FirstOk(args)) == Returned(None) <==>
      forall i :: 0 <= i < |args| ==> args[i].None?
    ensures forall r :: Resolve(Record(table, args), FirstOk(args)) == Returned(Some(r)) ==>
      r in Record(table, args) && Record(table, args)[r] == r
  {
    var t := Record(table, args);
    if FirstOk(args).Some? {
      var f := FirstOk(args).value;
      RecordAt(table, args, f);
      RecordKeepsValuesAreKeys(table, args);
      WalkInKeys(t, f, MAX_HOPS);
    }
  }

  /**
   * An alias resolves as its canonical value does: after a call, a later
   * call with just an alias `b` changes nothing and ends where a call with
   * the first value ends, provided the first value's chain reaches a root
   * one hop short of the cap (the alias's chain is one hop longer).
   */
  lemma AliasResolvesAlike(table: map<string, string>, args: seq<Option<string>>, b: string)
    requires FirstOk(args).Some? && Some(b) in args && b != FirstOk(args).value
    requires IsRoot(Record(table, args), Walk(Record(table, args), FirstOk(args).value, MAX_HOPS - 1))
    ensures Record(Record(table, args), [Some(b)]) == Record(table, args)
    ensures Resolve(Record(table, args), Some(b)) == Resolve(Record(table, args), FirstOk(args))
    ensures Resolve(Record(table, args), Some(b)).Returned?
  {
    var t, f := Record(table, args), FirstOk(args).value;
    RecordAt(table, args, b);
    assert t[b] == f;
    RecordOne(t, b);
    assert FirstOk([Some(b)]) == Some(b);
    var root := Walk(t, f, MAX_HOPS - 1);
    WalkSplit(t, b, 1, MAX_HOPS - 1);
    WalkSplit(t, f, MAX_HOPS - 1, 1);
    WalkFromRoot(t, root, 1);
  }

  /**
   * When the first value's chain needs exactly `MAX_HOPS` hops, the alias's
   * call, one hop longer, throws.
   */
  lemma AliasPastCap(table: map<string, string>, args: seq<Option<string>>, b: string)
    requires FirstOk(args).Some? && Some(b) in args && b != FirstOk(args).value
    requires !IsRoot(Record(table, args), Walk(Record(table, args), FirstOk(args).value, MAX_HOPS - 1))
    ensures Resolve(Record(table, args), Some(b)).FatalLoop?
  {
    var t := Record(table, args);
    RecordAt(table, args, b);
    WalkSplit(t, b, 1, MAX_HOPS - 1);
  }

  /** Calling with one value twice: the second call leaves the table as the first left it and gives the same outcome. */
  lemma CoalesceTwiceSame(table: map<string, string>, x: string)
    ensures Record(table, [Some(x)]) == if x in table then table else table[x := x]
    ensures Record(Record(table, [Some(x)]), [Some(x)]) == Record(table, [Some(x)])
  {
    RecordOne(table, x);
    RecordOne(Record(table, [Some(x)]), x);
  }

  /** A call with one non-null argument records it as its own value if it had no entry. */
  lemma RecordOne(table: map<string, string>, x: string)
    ensures Record(table, [Some(x)]) == if x in table then table else table[x := x]
  {
    assert FirstOk([Some(x)]) == Some(x);
    assert Redirect(table, x, []) == table;
    assert [Some(x)][..0] == [];
  }

  /** From an empty table, `x` twice returns `x` both times. */
  lemma ExampleSameValueTwice(x: string)
    ensures Record(map[], [Some(x)]) == map[x := x]
    ensures Record(map[x := x], [Some(x)]) == map[x := x]
    ensures Resolve(map[x := x], Some(x)) == Returned(Some(x))
  {
    CoalesceTwiceSame(map[], x);
    WalkFromRoot(map[x := x], x, MAX_HOPS);
  }

  /** `null, a, b, c` from an empty table returns `a` and records b -> a and c -> a; then `b`, and `c`, return `a`. */
  lemma ExampleAliases(a: string, b: string, c: string)
    requires a != b && a != c && b != c
    ensures var args := [None, Some(a), Some(b), Some(c)];
      && Record(map[], args) == map[a := a, b := a, c := a]
      && Resolve(map[a := a, b := a, c := a], FirstOk(args)) == Returned(Some(a))
    ensures Record(map[a := a, b := a, c := a], [Some(b)]) == map[a := a, b := a, c := a]
    ensures Resolve(map[a := a, b := a, c := a], Some(b)) == Returned(Some(a))
    ensures Record(map[a := a, b := a, c := a], [Some(c)]) == map[a := a, b := a, c := a]
    ensures Resolve(map[a := a, b := a, c := a], Some(c)) == Returned(Some(a))
  {
    var args := [None, Some(a), Some(b), Some(c)];
    var t := map[a := a, b := a, c := a];
    FirstOkAt(args, 1);
    assert Record(map[], args) == t by {
      RecordSnoc(map[], [], None);
      assert [None] + [Some(a)] == [None, Some(a)];
      RecordSnoc(map[], [None], Some(a));
      FirstOkAt([None, Some(a)], 1);
      assert [None, Some(a)] + [Some(b)] == [None, Some(a), Some(b)];
      RecordSnoc(map[], [None, Some(a)], Some(b));
      FirstOkAt([None, Some(a), Some(b)], 1);
      assert [None, Some(a), Some(b)] + [Some(c)] == args;
      RecordSnoc(map[], [None, Some(a), Some(b)], Some(c));
    }
    WalkFromRoot(t, a, MAX_HOPS);
    AliasResolvesAlike(map[], args, b);
    AliasResolvesAlike(map[], args, c);
  }

  /** Along a two-element cycle an even number of hops from `a` is back at `a`, an odd one at `b`. */
  lemma {:induction false} WalkTwoCycle(table: map<string, string>, a: string, b: string, k: nat)
    requires a in table && b in table && table[a] == b && table[b] == a
    ensures Walk(table, a, k) == if k % 2 == 0 then a else b
    decreases k
  {
    if k >= 2 {
      WalkSplit(table, a, 2, k - 2);
      assert Walk(table, a, 2) == a;
      WalkTwoCycle(table, a, b, k - 2);
    } else if k == 1 {
      assert Walk(table, a, 1) == Walk(table, b, 0);
    }
  }

  /**
   * Loops can be made with ordinary calls: from an empty table, `a, b`
   * returns `a` and records b -> a; then `b, a` records a -> b, keeping
   * b -> a, and the roll-up from `b` throws on hop 1001 at `a`. The table
   * left behind still has every value as a key: "no loops" does not follow
   * from that invariant.
   */
  lemma ExampleLoop(a: string, b: string)
    requires a != b
    ensures Record(map[], [Some(a), Some(b)]) == map[a := a, b := a]
    ensures Resolve(map[a := a, b := a], Some(a)) == Returned(Some(a))
    ensures Record(map[a := a, b := a], [Some(b), Some(a)]) == map[a := b, b := a]
    ensures FirstOk([Some(b), Some(a)]) == Some(b)
    ensures Resolve(map[a := b, b := a], Some(b)) == FatalLoop(a, map[a := b, b := a])
    ensures ValuesAreKeys(map[a := b, b := a])
  {
    var t1, t2 := map[a := a, b := a], map[a := b, b := a];
    assert FirstOk([Some(a), Some(b)]) == Some(a);
    RecordOne(map[], a);
    assert [Some(a)] + [Some(b)] == [Some(a), Some(b)];
    RecordSnoc(map[], [Some(a)], Some(b));
    RecordOne(t1, b);
    assert [Some(b)] + [Some(a)] == [Some(b), Some(a)];
    RecordSnoc(t1, [Some(b)], Some(a));
    WalkFromRoot(t1, a, MAX_HOPS);
    WalkTwoCycle(t2, b, a, MAX_HOPS);
  }

  /** The table of `persistentCoalesce`, as an object of its own. */
  class Coalescer {
    /** `persistentCoalesceLookup`: alias -> value it was redirected to. */
    var lookup: map<string, string>

    constructor ()
      ensures lookup == map[]
    {
      lookup := map[];
    }

    /**
     * `persistentCoalesce(...args)`. The scan's writes stay in the table
     * even when the roll-up then throws.
     */
    method Coalesce(args: seq<Option<string>>) returns (outcome: Outcome)
      modifies this
      ensures lookup == Record(old(lookup), args)
      ensures outcome == Resolve(lookup, FirstOk(args))
      ensures old(ValuesAreKeys(lookup)) ==> ValuesAreKeys(lookup)
    {
      var firstOkVal: Option<string> := None;
      for i := 0 to |args|
        invariant firstOkVal == FirstOk(args[..i])
        invariant lookup == Record(old(lookup), args[..i])
      {
        var arg := args[i];
        ScanPrefix(old(lookup), args, i);
        ghost var before := lookup;
        if arg.Some? {
          if firstOkVal.None? {
            firstOkVal := arg;
          }
          if arg.value !in lookup || firstOkVal.value != arg.value {
            lookup := lookup[arg.value := firstOkVal.value];
          }
          assert lookup == Step(before, firstOkVal.value, arg);
        }
      }
      assert args[..|args|] == args;
      if old(ValuesAreKeys(lookup)) {
        RecordKeepsValuesAreKeys(old(lookup), args);
      }
      if firstOkVal.None? {
        return Returned(None);
      }
      var start := firstOkVal.value;
      var v := start;
      var loops := 0;
      while v in lookup && lookup[v] != v
        invariant lookup == Record(old(lookup), args)
        invariant loops <= MAX_HOPS
        invariant v == Walk(lookup, start, loops)
        decreases MAX_HOPS - loops
      {
        WalkSplit(lookup, start, loops, 1);
        v := lookup[v];
        loops := loops + 1;
        if loops > MAX_HOPS {
          ResolvePastCap(lookup, start);
          return FatalLoop(v, lookup);
        }
      }
      ResolveAtRoot(lookup, start, loops);
      outcome := Returned(Some(v));
    }
  }
}
