/** The structural diff of two configurations (internal/state/diff.go). */
module ConfigDiff {
  import opened Common

  /** A decoded JSON value; `Scalar` stands for booleans, numbers and strings. */
  datatype Json = Null | Scalar(text: string) | Array(items: seq<Json>) | Object(fields: map<string, Json>)

  type Path = seq<string>

  /** A field, with a missing key read as null. */
  function Get(j: Json, key: string): Json
  {
    if j.Object? && key in j.fields then j.fields[key] else Null
  }

  function At(j: Json, p: Path): Json
    decreases |p|
  {
    if p == [] then j else At(Get(j, p[0]), p[1..])
  }

  function KeysOf(left: Json, right: Json): set<string>
  {
    (if left.Object? then left.fields.Keys else {}) + (if right.Object? then right.fields.Keys else {})
  }

  /** The key paths that walkDiff reports. */
  function Walked(left: Json, right: Json): set<Path>
    decreases left.Object?, left
  {
    if left == right then {}
    else if left.Object? && right.Object? then
      set key, p | key in KeysOf(left, right) && p in Walked(Get(left, key), Get(right, key)) :: [key] + p
    else {[]}
  }

  // ---------------------------------------------------------------- what is reported

  predicate BothObjects(left: Json, right: Json)
  {
    left.Object? && right.Object?
  }

  /** The walk gets to `p`: every proper prefix leads to an object on both sides. */
  predicate Reached(left: Json, right: Json, p: Path)
  {
    forall i :: 0 <= i < |p| ==> BothObjects(At(left, p[..i]), At(right, p[..i]))
  }

  predicate Reports(left: Json, right: Json, p: Path)
  {
    && Reached(left, right, p)
    && At(left, p) != At(right, p) && !BothObjects(At(left, p), At(right, p))
  }

  lemma ReachedStep(left: Json, right: Json, p: Path)
    requires p != []
    ensures Reached(left, right, p) <==> BothObjects(left, right) && Reached(Get(left, p[0]), Get(right, p[0]), p[1..])
  {
    var l, r := Get(left, p[0]), Get(right, p[0]);
    forall i | 0 <= i < |p[1..]|
      ensures At(left, p[..i + 1]) == At(l, p[1..][..i]) && At(right, p[..i + 1]) == At(r, p[1..][..i]) {
      assert p[..i + 1][1..] == p[1..][..i];
    }
    if Reached(left, right, p) {
      assert BothObjects(At(left, p[..0]), At(right, p[..0]));
      forall i | 0 <= i < |p[1..]| ensures BothObjects(At(l, p[1..][..i]), At(r, p[1..][..i])) {
        assert BothObjects(At(left, p[..i + 1]), At(right, p[..i + 1]));
      }
    }
    if BothObjects(left, right) && Reached(l, r, p[1..]) {
      forall i | 0 <= i < |p| ensures BothObjects(At(left, p[..i]), At(right, p[..i])) {
        if i > 0 {
          assert BothObjects(At(l, p[1..][..i - 1]), At(r, p[1..][..i - 1]));
        }
      }
    }
  }

  /** A path is reported exactly when the walk reaches it and the two sides differ there and are
      not both objects. */
  lemma {:induction false} ReportedExactly(left: Json, right: Json, p: Path)
    ensures p in Walked(left, right) <==> Reports(left, right, p)
    decreases |p|
  {
    if p == [] {
      assert forall key, q: Path :: [key] + q != [];
    } else {
      var key, rest := p[0], p[1..];
      ReachedStep(left, right, p);
      ReportedExactly(Get(left, key), Get(right, key), rest);
      hide Reached, Reports;
      WalkedStep(left, right, p);
      UnknownKeysAgree(left, right, p);
    }
  }

  lemma WalkedStep(left: Json, right: Json, p: Path)
    requires p != []
    ensures p in Walked(left, right) <==>
              left != right && BothObjects(left, right) && p[0] in KeysOf(left, right)
              && p[1..] in Walked(Get(left, p[0]), Get(right, p[0]))
  {
    assert p == [p[0]] + p[1..];
    if left != right && BothObjects(left, right) && p in Walked(left, right) {
      var key, q :| key in KeysOf(left, right) && q in Walked(Get(left, key), Get(right, key)) && p == [key] + q;
      assert p[0] == key && p[1..] == q;
    }
  }

  /** Nothing is reported below equal values or a key that neither side has. */
  lemma UnknownKeysAgree(left: Json, right: Json, p: Path)
    requires p != []
    ensures left == right || p[0] !in KeysOf(left, right) ==> !Reports(left, right, p)
    ensures Reports(left, right, p) <==>
              BothObjects(left, right) && Reports(Get(left, p[0]), Get(right, p[0]), p[1..])
  {
    ReachedStep(left, right, p);
  }

  /** Every difference is covered: where the two sides differ in something other than two objects,
      that path or one above it is reported. */
  lemma {:induction false} DifferencesAreCovered(left: Json, right: Json, p: Path)
    requires At(left, p) != At(right, p) && !BothObjects(At(left, p), At(right, p))
    ensures exists n :: 0 <= n <= |p| && p[..n] in Walked(left, right)
    decreases |p|
  {
    if !BothObjects(left, right) || p == [] {
      assert p[..0] in Walked(left, right);
    } else {
      DifferencesAreCovered(Get(left, p[0]), Get(right, p[0]), p[1..]);
      var n :| 0 <= n <= |p[1..]| && p[1..][..n] in Walked(Get(left, p[0]), Get(right, p[0]));
      var q := p[..n + 1];
      assert q[1..] == p[1..][..n] && q[0] == p[0];
      ReportedExactly(Get(left, p[0]), Get(right, p[0]), q[1..]);
      UnknownKeysAgree(left, right, q);
      ReportedExactly(left, right, q);
    }
  }

  // ---------------------------------------------------------------- when nothing is reported

  /** A value with its null fields dropped, through objects but not inside arrays. */
  function Pruned(j: Json): (r: Json)
    ensures r.Null? <==> j.Null?
    ensures r.Object? <==> j.Object?
    ensures !j.Object? ==> r == j
  {
    if j.Object? then Object(map key | key in j.fields && !j.fields[key].Null? :: Pruned(j.fields[key])) else j
  }

  lemma PrunedGet(j: Json, key: string)
    ensures j.Object? ==> Get(Pruned(j), key) == Pruned(Get(j, key))
  {
  }

  lemma PrunedEqual(left: Json, right: Json)
    requires BothObjects(left, right)
    ensures Pruned(left) == Pruned(right) <==> forall key :: Pruned(Get(left, key)) == Pruned(Get(right, key))
  {
    forall key ensures Get(Pruned(left), key) == Pruned(Get(left, key)) && Get(Pruned(right), key) == Pruned(Get(right, key)) {
      PrunedGet(left, key);
      PrunedGet(right, key);
    }
    if forall key :: Pruned(Get(left, key)) == Pruned(Get(right, key)) {
      var l, r := Pruned(left).fields, Pruned(right).fields;
      forall key ensures key in l <==> key in r {
        assert Pruned(Get(left, key)) == Pruned(Get(right, key));
      }
      forall key | key in l ensures l[key] == r[key] {
        assert Pruned(Get(left, key)) == Pruned(Get(right, key));
      }
      assert l == r;
    }
  }

  /** Nothing is reported exactly when the two configurations are equal with a missing key read as
      null. */
  lemma {:induction false} SilentExactly(left: Json, right: Json)
    ensures Walked(left, right) == {} <==> Pruned(left) == Pruned(right)
    decreases left.Object?, left
  {
    if BothObjects(left, right) && left != right {
      PrunedEqual(left, right);
      hide Pruned;
      forall key ensures Walked(Get(left, key), Get(right, key)) == {} <==> Pruned(Get(left, key)) == Pruned(Get(right, key)) {
        SilentExactly(Get(left, key), Get(right, key));
      }
      if Walked(left, right) == {} {
        forall key ensures Walked(Get(left, key), Get(right, key)) == {} {
          if p :| p in Walked(Get(left, key), Get(right, key)) {
            KnownKey(left, right, key, p);
            WalkedStep(left, right, [key] + p);
          }
        }
      } else {
        var p :| p in Walked(left, right);
        assert p != [];
        WalkedStep(left, right, p);
      }
    } else {
      assert Walked(left, right) == if left == right then {} else {[]};
    }
  }

  lemma KnownKey(left: Json, right: Json, key: string, p: Path)
    requires p in Walked(Get(left, key), Get(right, key))
    ensures key in KeysOf(left, right)
    ensures ([key] + p)[0] == key && ([key] + p)[1..] == p
  {
  }

  // ---------------------------------------------------------------- rendering

  function Joined(prefix: string, key: string): string
  {
    if prefix == "" then key else prefix + "." + key
  }

  /** A path as it is printed below `prefix`. */
  function Rendered(prefix: string, p: Path): string
    decreases |p|
  {
    if p == [] then (if prefix == "" then "$" else prefix) else Rendered(Joined(prefix, p[0]), p[1..])
  }

  function RenderedAll(prefix: string, order: seq<Path>): (r: seq<string>)
    ensures |r| == |order| && forall i :: 0 <= i < |r| ==> r[i] == Rendered(prefix, order[i])
  {
    seq(|order|, i requires 0 <= i < |order| => Rendered(prefix, order[i]))
  }

  /** `order` lists the paths of `all`, each once. */
  ghost predicate Lists(order: seq<Path>, all: set<Path>)
  {
    && (forall p :: p in order <==> p in all)
    && (forall i, j :: 0 <= i < j < |order| ==> order[i] != order[j])
  }

  /** The reported paths that start with one of `keys`. */
  function WalkedUnder(left: Json, right: Json, keys: set<string>): set<Path>
  {
    set key, p | key in keys && p in Walked(Get(left, key), Get(right, key)) :: [key] + p
  }

  function Under(key: string, order: seq<Path>): (r: seq<Path>)
    ensures |r| == |order| && forall i :: 0 <= i < |r| ==> r[i] == [key] + order[i]
  {
    seq(|order|, i requires 0 <= i < |order| => [key] + order[i])
  }

  /** walkDiff: the reported paths are printed after those already found, each exactly once. `order` is
      the order in which they were met. */
  method WalkDiff(prefix: string, left: Json, right: Json, paths: seq<string>)
      returns (more: seq<string>, ghost order: seq<Path>)
    ensures Lists(order, Walked(left, right)) && more == paths + RenderedAll(prefix, order)
    ensures |more| == |paths| + |Walked(left, right)|
    ensures forall s :: s in more[|paths|..] <==> Printed(prefix, left, right, s)
    decreases left.Object?, left, 2
  {
    more, order := WalkOnce(prefix, left, right, paths);
    ListsPrint(prefix, left, right, order);
    assert more[|paths|..] == RenderedAll(prefix, order);
  }

  ghost predicate Printed(prefix: string, left: Json, right: Json, s: string)
  {
    exists p :: p in Walked(left, right) && Rendered(prefix, p) == s
  }

  lemma {:induction false} ListsCount(order: seq<Path>, all: set<Path>)
    requires Lists(order, all)
    ensures |order| == |all|
  {
    if order == [] {
      assert all == {};
    } else {
      var init, last := order[..|order| - 1], order[|order| - 1];
      assert order == init + [last];
      assert last in order;
      forall p ensures p in init <==> p in all - {last} {
        assert p in order <==> p in init || p == last;
      }
      ListsCount(init, all - {last});
    }
  }

  lemma ListsPrint(prefix: string, left: Json, right: Json, order: seq<Path>)
    requires Lists(order, Walked(left, right))
    ensures |order| == |Walked(left, right)|
    ensures forall s :: s in RenderedAll(prefix, order) <==> Printed(prefix, left, right, s)
  {
    hide Walked, Rendered;
    ListsCount(order, Walked(left, right));
    forall s ensures s in RenderedAll(prefix, order) <==> Printed(prefix, left, right, s) {
      if s in RenderedAll(prefix, order) {
        var i :| 0 <= i < |order| && RenderedAll(prefix, order)[i] == s;
        assert order[i] in order;
      }
      if Printed(prefix, left, right, s) {
        var p :| p in Walked(left, right) && Rendered(prefix, p) == s;
        assert p in order;
        var i :| 0 <= i < |order| && order[i] == p;
        assert RenderedAll(prefix, order)[i] == s;
      }
    }
  }

  /** The body of walkDiff: equal values, two objects, or a difference to print. */
  method WalkOnce(prefix: string, left: Json, right: Json, paths: seq<string>)
      returns (more: seq<string>, ghost order: seq<Path>)
    ensures Lists(order, Walked(left, right)) && more == paths + RenderedAll(prefix, order)
    decreases left.Object?, left, 1
  {
    more, order := paths, [];
    if left == right {
      return;
    }
    if left.Object? && right.Object? {
      WalkedIsUnder(left, right);
      hide Walked, Lists, WalkedUnder, RenderedAll;
      more, order := WalkObjects(prefix, left, right, paths);
      return;
    }
    order := [[]];
    more := paths + [if prefix == "" then "$" else prefix];
    assert RenderedAll(prefix, order) == [if prefix == "" then "$" else prefix];
  }

  /** The keys of both objects in turn. */
  method WalkObjects(prefix: string, left: Json, right: Json, paths: seq<string>)
      returns (more: seq<string>, ghost order: seq<Path>)
    requires BothObjects(left, right)
    ensures Lists(order, WalkedUnder(left, right, KeysOf(left, right))) && more == paths + RenderedAll(prefix, order)
    decreases left.Object?, left, 0
  {
    more, order := paths, [];
    NothingListed(left, right);
    assert paths + RenderedAll(prefix, []) == paths;
    hide Rendered, Walked, Lists, WalkedUnder, Under, RenderedAll, Joined;
    var rest := left.fields.Keys + right.fields.Keys;
    ghost var done: set<string> := {};
    while rest != {}
      invariant done + rest == KeysOf(left, right) && done !! rest
      invariant Lists(order, WalkedUnder(left, right, done)) && more == paths + RenderedAll(prefix, order)
      decreases |rest|
    {
      var key :| key in rest;
      ghost var below;
      more, below := WalkDiff(Joined(prefix, key), Get(left, key), Get(right, key), more);
      ListsMore(left, right, done, key, order, below);
      RendersMore(prefix, key, order, below);
      Regroup(paths, RenderedAll(prefix, order), RenderedAll(Joined(prefix, key), below));
      order := order + Under(key, below);
      done, rest := done + {key}, rest - {key};
    }
    assert done == KeysOf(left, right);
  }

  lemma NothingListed(left: Json, right: Json)
    ensures Lists([], WalkedUnder(left, right, {}))
  {
  }

  lemma Regroup(a: seq<string>, b: seq<string>, c: seq<string>)
    ensures a + (b + c) == a + b + c
  {
  }

  lemma WalkedIsUnder(left: Json, right: Json)
    requires left != right && BothObjects(left, right)
    ensures Walked(left, right) == WalkedUnder(left, right, KeysOf(left, right))
  {
  }

  lemma RendersMore(prefix: string, key: string, order: seq<Path>, below: seq<Path>)
    ensures RenderedAll(prefix, order + Under(key, below)) ==
              RenderedAll(prefix, order) + RenderedAll(Joined(prefix, key), below)
  {
    forall i | 0 <= i < |below| ensures Rendered(prefix, [key] + below[i]) == Rendered(Joined(prefix, key), below[i]) {
      assert ([key] + below[i])[0] == key && ([key] + below[i])[1..] == below[i];
    }
  }

  lemma ListsMore(left: Json, right: Json, done: set<string>, key: string, order: seq<Path>, below: seq<Path>)
    requires Lists(order, WalkedUnder(left, right, done)) && key !in done
    requires Lists(below, Walked(Get(left, key), Get(right, key)))
    ensures Lists(order + Under(key, below), WalkedUnder(left, right, done + {key}))
  {
    hide Walked;
    var all, under := order + Under(key, below), Under(key, below);
    forall p ensures p in all <==> p in WalkedUnder(left, right, done + {key}) {
      StartsWith(left, right, done, key, p);
      if p in under {
        var i :| 0 <= i < |under| && under[i] == p;
        assert below[i] in below && p == [key] + below[i];
      }
      if p != [] && p[0] == key && p[1..] in below {
        var i :| 0 <= i < |below| && below[i] == p[1..];
        assert under[i] == [key] + p[1..] == p;
      }
    }
    forall i, j | 0 <= i < j < |under| ensures under[i] != under[j] {
      assert under[i][1..] == below[i] && under[j][1..] == below[j];
    }
    forall i, j | 0 <= i < |order| && 0 <= j < |under| ensures order[i] != under[j] {
      assert order[i] in order && under[j][0] == key;
      StartsWith(left, right, done, key, order[i]);
    }
  }

  /** A path is reported under the keys so far, under the new key, or not at all. */
  lemma StartsWith(left: Json, right: Json, done: set<string>, key: string, p: Path)
    ensures p in WalkedUnder(left, right, done) ==> p != [] && p[0] in done
    ensures p in WalkedUnder(left, right, done + {key}) <==>
              p in WalkedUnder(left, right, done) || (p != [] && p[0] == key && p[1..] in Walked(Get(left, key), Get(right, key)))
  {
    hide Walked;
    if p != [] {
      assert p == [p[0]] + p[1..];
    }
    if p in WalkedUnder(left, right, done + {key}) {
      var k, q :| k in done + {key} && q in Walked(Get(left, k), Get(right, k)) && p == [k] + q;
      assert p[0] == k && p[1..] == q;
    }
  }

  /** Keys joined by dots. */
  function Dotted(p: Path): string
    requires p != []
  {
    if |p| == 1 then p[0] else Dotted(p[..|p| - 1]) + "." + p[|p| - 1]
  }

  lemma {:induction false} RenderedBelow(prefix: string, p: Path)
    requires prefix != "" && forall i :: 0 <= i < |p| ==> p[i] != ""
    ensures Rendered(prefix, p) == if p == [] then prefix else prefix + "." + Dotted(p)
    decreases |p|
  {
    if |p| > 1 {
      RenderedBelow(prefix + "." + p[0], p[1..]);
      DottedCons(p);
      assert prefix + "." + p[0] + "." + Dotted(p[1..]) == prefix + "." + (p[0] + "." + Dotted(p[1..]));
    } else if |p| == 1 {
      assert p[1..] == [];
    }
  }

  lemma {:induction false} DottedCons(p: Path)
    requires |p| > 1
    ensures Dotted(p) == p[0] + "." + Dotted(p[1..])
    decreases |p|
  {
    var init, last, tail := p[..|p| - 1], p[|p| - 1], p[1..];
    assert Dotted(p) == Dotted(init) + "." + last;
    if |p| == 2 {
      assert tail == [last] && init == [p[0]];
      assert Dotted(tail) == last && Dotted(init) == p[0];
    } else {
      assert tail[..|tail| - 1] == init[1..] && tail[|tail| - 1] == last;
      assert Dotted(tail) == Dotted(init[1..]) + "." + last;
      hide Dotted;
      DottedCons(init);
      assert p[0] + "." + Dotted(init[1..]) + "." + last == p[0] + "." + (Dotted(init[1..]) + "." + last);
    }
  }

  /** How a reported path reads: its keys joined by dots, and "$" for the whole configuration. */
  lemma {:induction false} PathsReadDotted(p: Path)
    requires forall i :: 0 <= i < |p| ==> p[i] != ""
    ensures Rendered("", p) == if p == [] then "$" else Dotted(p)
  {
    if p != [] {
      RenderedBelow(p[0], p[1..]);
      if |p| > 1 {
        DottedCons(p);
      } else {
        assert p[1..] == [];
      }
    }
  }
}
