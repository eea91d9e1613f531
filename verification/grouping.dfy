/**
 * Grouping of uploaded image names into sequences: every name with an
 * underscore is filed under its key (all tokens but the last), and a key whose
 * group has exactly two names becomes a sequence holding that pair, sorted.
 * The imperative grouping itself is `Session.GroupImagesIntoSequences`; this
 * module gives the reference definitions it is proved against.
 */
module Grouping {
  import opened Common
  import opened Names

  /** `name.split("_").length >= 2`: the name takes part in grouping. */
  predicate HasKey(name: string)
  {
    |Split(name)| >= 2
  }

  /** The name is filed under key `k`. */
  predicate InGroup(name: string, k: string)
  {
    HasKey(name) && GroupKey(name) == k
  }

  /** `prefixMap[k]` after the first loop: the names filed under `k`, in upload order. */
  function Group(names: seq<string>, k: string): (g: seq<string>)
    ensures |g| <= |names|
    ensures forall n {:trigger n in g} :: n in g <==> n in names && InGroup(n, k)
  {
    if names == [] then []
    else
      var last := names[|names| - 1];
      assert names == names[..|names| - 1] + [last];
      Group(names[..|names| - 1], k) + (if InGroup(last, k) then [last] else [])
  }

  /** The keys of `prefixMap` in the order they were first met, which is the order `for .. in` visits them. */
  function Discovered(names: seq<string>): (keys: seq<string>)
    ensures Distinct(keys)
    ensures forall k {:trigger k in keys} :: k in keys <==> Group(names, k) != []
  {
    if names == [] then []
    else
      var last := names[|names| - 1];
      var keys := Discovered(names[..|names| - 1]);
      GroupNonEmptyStep(names);
      if HasKey(last) && GroupKey(last) !in keys then DistinctSnoc(keys, GroupKey(last)); keys + [GroupKey(last)] else keys
  }

  /** A key has names exactly when it had some before the last name, or the last name is filed under it. */
  lemma {:induction false} GroupNonEmptyStep(names: seq<string>)
    requires names != []
    ensures forall k {:trigger Group(names, k)} ::
      Group(names, k) != [] <==> Group(names[..|names| - 1], k) != [] || InGroup(names[|names| - 1], k)
  {
    forall k ensures Group(names, k) != [] <==> Group(names[..|names| - 1], k) != [] || InGroup(names[|names| - 1], k) {
      assert Group(names, k) == Group(names[..|names| - 1], k) + if InGroup(names[|names| - 1], k) then [names[|names| - 1]] else [];
    }
  }

  /** `prefixMap` after the first loop, as a map. */
  function PrefixMap(names: seq<string>): (m: map<string, seq<string>>)
    ensures forall k {:trigger k in m} :: k in m <==> Group(names, k) != []
    ensures forall k {:trigger m[k]} | k in m :: m[k] == Group(names, k)
  {
    map k | k in Discovered(names) :: Group(names, k)
  }

  /** `prefixMap[key].sort()` on a group of two. */
  function SortPair(g: seq<string>): (pair: seq<string>)
    requires |g| == 2
    ensures |pair| == 2 && LexLessEq(pair[0], pair[1])
    ensures multiset(pair) == multiset(g)
  {
    if LexLessEq(g[0], g[1]) then g
    else
      LexTotal(g[0], g[1]);
      assert g == [g[0], g[1]];
      [g[1], g[0]]
  }

  /** The pairs among the keys `keys`: what the second loop of the grouping has added after visiting `keys`. */
  function PairsAmong(keys: seq<string>, names: seq<string>): (m: map<string, seq<string>>)
    ensures forall k {:trigger k in m} :: k in m <==> k in keys && |Group(names, k)| == 2
    ensures forall k {:trigger m[k]} | k in m :: m[k] == SortPair(Group(names, k))
  {
    if keys == [] then map[]
    else
      var last := keys[|keys| - 1];
      var m := PairsAmong(keys[..|keys| - 1], names);
      assert keys == keys[..|keys| - 1] + [last];
      if |Group(names, last)| == 2 then m[last := SortPair(Group(names, last))] else m
  }

  /** The sequences one call of grouping contributes: every key with exactly two names, mapped to the sorted pair. */
  function Pairs(names: seq<string>): (m: map<string, seq<string>>)
    ensures forall k {:trigger k in m} :: k in m <==> |Group(names, k)| == 2
    ensures forall k | k in m :: |m[k]| == 2 && LexLessEq(m[k][0], m[k][1])
    ensures forall k {:trigger m[k]} | k in m :: multiset(m[k]) == multiset(Group(names, k))
    ensures forall k {:trigger m[k]} | k in m :: m[k] == SortPair(Group(names, k))
  {
    map k | k in Discovered(names) && |Group(names, k)| == 2 :: SortPair(Group(names, k))
  }

  /** The second loop's step on the sequences: visiting `key` adds its pair when its group has two names. */
  lemma {:induction false} AddStepPairs(base: map<string, seq<string>>, visited: seq<string>, key: string, names: seq<string>,
                     m: map<string, seq<string>>, m': map<string, seq<string>>)
    requires m == base + PairsAmong(visited, names)
    requires m' == if |Group(names, key)| == 2 then m[key := SortPair(Group(names, key))] else m
    ensures m' == base + PairsAmong(visited + [key], names)
  {
    PairsAmongStep(visited, names, key);
    if |Group(names, key)| == 2 {
      MergeUpdate(base, PairsAmong(visited, names), key, SortPair(Group(names, key)));
    }
  }

  /** The second loop's step on the order: a key not visited before is new exactly when the sequences lack it. */
  lemma {:induction false} AddStepNames(base: map<string, seq<string>>, order: seq<string>, visited: seq<string>, key: string,
                     names: seq<string>, m: map<string, seq<string>>, o: seq<string>, o': seq<string>)
    requires key !in visited
    requires m == base + PairsAmong(visited, names)
    requires o == order + NewNames(visited, names, base.Keys)
    requires o' == if |Group(names, key)| == 2 && key !in m then o + [key] else o
    ensures o' == order + NewNames(visited + [key], names, base.Keys)
  {
    NewNamesStep(visited, names, base.Keys, key);
    var added := NewNames(visited, names, base.Keys);
    assert key !in PairsAmong(visited, names);
    assert key in m <==> key in base.Keys;
    if |Group(names, key)| == 2 && key !in base.Keys {
      AppendAssoc(order, added, [key]);
    } else {
      assert added + [] == added;
    }
  }

  /** Before the second loop visits any key, nothing is added. */
  lemma {:induction false} AddNothing(base: map<string, seq<string>>, order: seq<string>, names: seq<string>)
    ensures base + PairsAmong([], names) == base
    ensures order + NewNames([], names, base.Keys) == order
  {
    var l := base + PairsAmong([], names);
    forall k ensures (k in l <==> k in base) && (k in l ==> l[k] == base[k]) {
    }
    MapExt(l, base);
    assert order + [] == order;
  }

  /** One visit of the second loop: the `j`-th key of a list of distinct keys, after the ones before it. */
  lemma {:induction false} AddStep(base: map<string, seq<string>>, order: seq<string>, keys: seq<string>, j: nat,
                 visited: seq<string>, names: seq<string>, m: map<string, seq<string>>, o: seq<string>,
                 m': map<string, seq<string>>, o': seq<string>)
    requires Distinct(keys) && j < |keys| && |visited| == j
    requires forall i :: 0 <= i < j ==> visited[i] == keys[i]
    requires m == base + PairsAmong(visited, names)
    requires o == order + NewNames(visited, names, base.Keys)
    requires var key := keys[j]; m' == if |Group(names, key)| == 2 then m[key := SortPair(Group(names, key))] else m
    requires var key := keys[j]; o' == if |Group(names, key)| == 2 && key !in m then o + [key] else o
    ensures m' == base + PairsAmong(visited + [keys[j]], names)
    ensures o' == order + NewNames(visited + [keys[j]], names, base.Keys)
  {
    var key := keys[j];
    assert key !in visited by {
      forall i | 0 <= i < j ensures visited[i] != key {
        assert visited[i] == keys[i];
      }
    }
    AddStepPairs(base, visited, key, names, m, m');
    AddStepNames(base, order, visited, key, names, m, o, o');
  }

  /** Updating the right operand of a merge updates the merge. */
  lemma {:induction false} MergeUpdate(a: map<string, seq<string>>, b: map<string, seq<string>>, k: string, v: seq<string>)
    ensures a + b[k := v] == (a + b)[k := v]
  {
    var l, r := a + b[k := v], (a + b)[k := v];
    forall x ensures (x in l <==> x in r) && (x in l ==> l[x] == r[x]) {
    }
  }

  /** Distinct keys give distinct new names. */
  lemma {:induction false} NewNamesDistinct(keys: seq<string>, names: seq<string>, existing: set<string>)
    requires Distinct(keys)
    ensures Distinct(NewNames(keys, names, existing))
  {
    if keys != [] {
      var init, last := keys[..|keys| - 1], keys[|keys| - 1];
      assert keys == init + [last];
      assert last !in init by {
        forall i | 0 <= i < |init| ensures init[i] != last {
          assert init[i] == keys[i];
        }
      }
      NewNamesDistinct(init, names, existing);
      assert last !in NewNames(init, names, existing);
    }
  }

  /**
   * Adding the pairs among `keys` to a map whose keys `order` lists once each,
   * and appending the new names to `order`, keeps `order` listing the keys
   * once each and every value a pair.
   */
  lemma {:induction false} Extended(base: map<string, seq<string>>, order: seq<string>, keys: seq<string>, names: seq<string>)
    requires forall k :: k in base <==> k in order
    requires Distinct(order) && Distinct(keys)
    requires forall k | k in base :: |base[k]| == 2
    ensures
      var m, o := base + PairsAmong(keys, names), order + NewNames(keys, names, base.Keys);
      && (forall k :: k in m <==> k in o)
      && Distinct(o)
      && (forall k | k in m :: |m[k]| == 2)
  {
    var added := NewNames(keys, names, base.Keys);
    NewNamesDistinct(keys, names, base.Keys);
    var o := order + added;
    forall i, j | 0 <= i < j < |o| ensures o[i] != o[j] {
      if j >= |order| {
        if i >= |order| {
          assert o[i] == added[i - |order|] && o[j] == added[j - |order|];
        } else {
          assert o[j] in added && o[i] in order;
        }
      }
    }
  }

  /** Visiting one more key adds its pair when its group has two names. */
  lemma {:induction false} PairsAmongStep(keys: seq<string>, names: seq<string>, key: string)
    ensures PairsAmong(keys + [key], names)
         == if |Group(names, key)| == 2 then PairsAmong(keys, names)[key := SortPair(Group(names, key))]
            else PairsAmong(keys, names)
  {
    var ks := keys + [key];
    assert ks[|ks| - 1] == key && ks[..|ks| - 1] == keys;
  }

  lemma {:induction false} PairsAmongAt(names: seq<string>, k: string)
    ensures var m, p := PairsAmong(Discovered(names), names), Pairs(names);
            (k in m <==> k in p) && (k in m ==> m[k] == p[k])
  {
  }

  /** Visiting every discovered key adds exactly the pairs. */
  lemma {:induction false} PairsAmongDiscovered(names: seq<string>)
    ensures PairsAmong(Discovered(names), names) == Pairs(names)
  {
    var m, p := PairsAmong(Discovered(names), names), Pairs(names);
    forall k ensures (k in m <==> k in p) && (k in m ==> m[k] == p[k]) {
      PairsAmongAt(names, k);
    }
    MapExt(m, p);
  }

  /** Visiting one more key appends it to the new names when it is a new pair. */
  lemma {:induction false} NewNamesStep(keys: seq<string>, names: seq<string>, existing: set<string>, key: string)
    ensures NewNames(keys + [key], names, existing)
         == NewNames(keys, names, existing) + (if |Group(names, key)| == 2 && key !in existing then [key] else [])
  {
    assert (keys + [key])[..|keys|] == keys;
  }

  /**
   * Every name in a pair was uploaded, has an underscore (so names of a single
   * token never contribute), and has the pair's key as the part before its
   * last underscore.
   */
  lemma {:induction false} PairMembers(names: seq<string>, k: string, n: string)
    requires k in Pairs(names) && n in Pairs(names)[k]
    ensures n in names && '_' in n
    ensures exists last :: n == k + "_" + last && '_' !in last
  {
    PairsInGroup(names);
    assert n in multiset(Pairs(names)[k]);
    assert n in Group(names, k);
    SplitCount(n);
    KeyShape(n);
  }

  /** The keys of `keys` that grouping `names` adds and `existing` does not hold yet, in order. */
  function NewNames(keys: seq<string>, names: seq<string>, existing: set<string>): (added: seq<string>)
    ensures forall k {:trigger k in added} :: k in added <==> k in keys && |Group(names, k)| == 2 && k !in existing
  {
    if keys == [] then []
    else
      var last := keys[|keys| - 1];
      assert keys == keys[..|keys| - 1] + [last];
      NewNames(keys[..|keys| - 1], names, existing)
        + (if |Group(names, last)| == 2 && last !in existing then [last] else [])
  }

  /** Filing the names of `a + b` files those of `a`, then those of `b`. */
  lemma {:induction false} GroupAppend(a: seq<string>, b: seq<string>, k: string)
    ensures Group(a + b, k) == Group(a, k) + Group(b, k)
  {
    if b != [] {
      var ab := a + b;
      assert ab[..|ab| - 1] == a + b[..|b| - 1];
      assert ab[|ab| - 1] == b[|b| - 1];
      GroupAppend(a, b[..|b| - 1], k);
      assert Group(ab, k) == Group(a + b[..|b| - 1], k) + (if InGroup(b[|b| - 1], k) then [b[|b| - 1]] else []);
    } else {
      assert a + b == a;
    }
  }

  /** Names that all share key `k'` form one group, under `k'`. */
  lemma {:induction false} GroupOfOneKey(s: seq<string>, k': string, k: string)
    requires forall n | n in s :: InGroup(n, k')
    ensures Group(s, k) == if k == k' then s else []
  {
    if s != [] {
      var init := s[..|s| - 1];
      assert s == init + [s[|s| - 1]];
      assert forall n | n in init :: n in s;
      GroupOfOneKey(init, k', k);
      assert s[|s| - 1] in s;
    }
  }

  /** The pairs of `m` under `keys`, one after the other: the names a regrouping would see. */
  function Flatten(keys: seq<string>, m: map<string, seq<string>>): seq<string>
  {
    if keys == [] then []
    else
      var last := keys[|keys| - 1];
      Flatten(keys[..|keys| - 1], m) + (if last in m then m[last] else [])
  }

  lemma {:induction false} GroupFlatten(keys: seq<string>, m: map<string, seq<string>>, k: string)
    requires Distinct(keys)
    requires forall k', n | k' in m && n in m[k'] :: InGroup(n, k')
    ensures Group(Flatten(keys, m), k) == if k in keys && k in m then m[k] else []
  {
    if keys != [] {
      var init, last := keys[..|keys| - 1], keys[|keys| - 1];
      assert keys == init + [last];
      assert Distinct(init) by {
        forall i, j | 0 <= i < j < |init| ensures init[i] != init[j] {
          assert init[i] == keys[i] && init[j] == keys[j];
        }
      }
      GroupFlatten(init, m, k);
      var fi, tail := Flatten(init, m), if last in m then m[last] else [];
      assert Flatten(keys, m) == fi + tail;
      GroupAppend(fi, tail, k);
      GroupOfOneKey(tail, last, k);
      if k == last {
        assert k !in init by {
          forall i | 0 <= i < |init| ensures init[i] != last {
            assert init[i] == keys[i];
          }
        }
        assert Group(fi, k) == [];
        assert Group(fi, k) + Group(tail, k) == Group(tail, k);
      } else {
        assert Group(tail, k) == [];
        assert Group(fi, k) + Group(tail, k) == Group(fi, k);
      }
    }
  }

  /** Every name in a pair is filed under the pair's key. */
  lemma {:induction false} PairsInGroup(names: seq<string>)
    ensures forall k, n | k in Pairs(names) && n in Pairs(names)[k] :: InGroup(n, k)
  {
    var m := Pairs(names);
    forall k, n | k in m && n in m[k] ensures InGroup(n, k) {
      assert n in multiset(m[k]);
      assert n in Group(names, k);
    }
  }

  lemma {:induction false} RegroupAt(names: seq<string>, k: string)
    ensures var m := Pairs(names);
            var again := Pairs(Flatten(Discovered(names), m));
            (k in again <==> k in m) && (k in m ==> again[k] == m[k])
  {
    var m := Pairs(names);
    var keys := Discovered(names);
    PairsInGroup(names);
    GroupFlatten(keys, m, k);
    if k in m {
      assert k in keys;
    }
  }

  /** Regrouping the names of the pairs found gives the same pairs back. */
  lemma {:induction false} GroupingIdempotent(names: seq<string>)
    ensures Pairs(Flatten(Discovered(names), Pairs(names))) == Pairs(names)
  {
    var m := Pairs(names);
    var again := Pairs(Flatten(Discovered(names), m));
    forall k ensures (k in again <==> k in m) && (k in again ==> again[k] == m[k]) {
      RegroupAt(names, k);
    }
    MapExt(again, m);
  }

  /**
   * Names of the members every object inherits from `Object.prototype`; the
   * source keeps `prefixMap` in a plain object literal, so reading
   * `prefixMap[k]` for one of these finds the inherited member.
   */
  const InheritedMembers: set<string> := {
    "constructor", "hasOwnProperty", "isPrototypeOf", "propertyIsEnumerable",
    "toLocaleString", "toString", "valueOf", "__proto__",
    "__defineGetter__", "__defineSetter__", "__lookupGetter__", "__lookupSetter__"
  }

  /**
   * The first loop of the grouping as written, over a plain object: for a key
   * naming an inherited member, `!prefixMap[k]` is false, so no array is made,
   * and `prefixMap[k].push` is not a function: a TypeError (`None`) ends the
   * whole upload.
   */
  function PrefixMapAsWritten(names: seq<string>): (r: Option<map<string, seq<string>>>)
    ensures r.Some? ==> forall k | k in r.value :: k !in InheritedMembers
    ensures r.None? <==> exists n | n in names :: HasKey(n) && GroupKey(n) in InheritedMembers
  {
    if names == [] then Some(map[])
    else
      var last := names[|names| - 1];
      assert names == names[..|names| - 1] + [last];
      match PrefixMapAsWritten(names[..|names| - 1])
      case None => None
      case Some(m) =>
        if !HasKey(last) then Some(m)
        else
          var k := GroupKey(last);
          if k in m then Some(m[k := m[k] + [last]])
          else if k in InheritedMembers then None
          else Some(m[k := [last]])
  }

  /** The map `prefixMap` becomes once the last of `names` is filed. */
  function FileLast(names: seq<string>): map<string, seq<string>>
    requires names != []
  {
    var m, last := PrefixMap(names[..|names| - 1]), names[|names| - 1];
    var k := GroupKey(last);
    if !HasKey(last) then m
    else if k in m then m[k := m[k] + [last]]
    else m[k := [last]]
  }

  lemma {:induction false} FileLastAt(names: seq<string>, k: string)
    requires names != []
    ensures (k in FileLast(names) <==> k in PrefixMap(names))
    ensures k in FileLast(names) ==> FileLast(names)[k] == PrefixMap(names)[k]
  {
    var init, last := names[..|names| - 1], names[|names| - 1];
    var m, g := PrefixMap(init), Group(init, k);
    assert Group(names, k) == g + (if InGroup(last, k) then [last] else []);
    if InGroup(last, k) {
      if k in m {
        assert m[k] == g;
      } else {
        assert g == [];
      }
    } else {
      assert Group(names, k) == g;
    }
  }

  /** Filing one more name extends the group under its key and leaves the others alone. */
  lemma {:induction false} PrefixMapStep(names: seq<string>)
    requires names != []
    ensures PrefixMap(names) == FileLast(names)
  {
    forall k ensures (k in FileLast(names) <==> k in PrefixMap(names))
                 && (k in FileLast(names) ==> FileLast(names)[k] == PrefixMap(names)[k]) {
      FileLastAt(names, k);
    }
  }

  /**
   * The first loop's step on one more name: a name with an underscore extends
   * the group under its key, opening it (and the key order) when the key is new.
   */
  lemma {:induction false} FileOne(init: seq<string>, name: string)
    ensures
      var m, k := PrefixMap(init), GroupKey(name);
      PrefixMap(init + [name]) == if !HasKey(name) then m else if k in m then m[k := m[k] + [name]] else m[k := [name]]
    ensures
      var keys, k := Discovered(init), GroupKey(name);
      Discovered(init + [name]) == if HasKey(name) && k !in keys then keys + [k] else keys
  {
    var names := init + [name];
    assert names[..|names| - 1] == init;
    PrefixMapStep(names);
  }

  /** The first loop's step, stated on the values the loop holds before and after filing `name`. */
  lemma {:induction false} FileStep(init: seq<string>, name: string, m: map<string, seq<string>>, keys: seq<string>,
                 m': map<string, seq<string>>, keys': seq<string>)
    requires m == PrefixMap(init) && keys == Discovered(init)
    requires
      var k := GroupKey(name);
      m' == if !HasKey(name) then m else if k in m then m[k := m[k] + [name]] else m[k := [name]]
    requires
      var k := GroupKey(name);
      keys' == if HasKey(name) && k !in m then keys + [k] else keys
    ensures m' == PrefixMap(init + [name]) && keys' == Discovered(init + [name])
  {
    FileOne(init, name);
    assert GroupKey(name) in m <==> GroupKey(name) in keys;
  }

  /** Before the first loop files any name, the map and the key order are empty. */
  lemma {:induction false} FileNothing()
    ensures PrefixMap([]) == map[] && Discovered([]) == []
  {
    var m: map<string, seq<string>> := map[];
    MapExt(PrefixMap([]), m);
  }

  /** Away from inherited member names, the object literal behaves as a dictionary. */
  lemma {:induction false} PrefixMapAsWrittenAgrees(names: seq<string>)
    requires forall n | n in names && HasKey(n) :: GroupKey(n) !in InheritedMembers
    ensures PrefixMapAsWritten(names) == Some(PrefixMap(names))
  {
    if names != [] {
      assert names == names[..|names| - 1] + [names[|names| - 1]];
      PrefixMapAsWrittenAgrees(names[..|names| - 1]);
      PrefixMapStep(names);
    }
  }

  /**
   * Two uploads whose shared key names an inherited member form a pair, but
   * the code as written throws instead of grouping them.
   */
  lemma {:induction false} InheritedKeyThrows(k: string, x: string, y: string)
    requires k in InheritedMembers
    requires '_' !in x && '_' !in y
    ensures k in Pairs([k + "_" + x, k + "_" + y])
    ensures PrefixMapAsWritten([k + "_" + x, k + "_" + y]) == None
  {
    var a, b := k + "_" + x, k + "_" + y;
    KeyUnique(a, k, x);
    KeyUnique(b, k, y);
    assert '_' in a && '_' in b by {
      assert a[|k|] == '_' && b[|k|] == '_';
    }
    SplitCount(a);
    SplitCount(b);
    var names := [a, b];
    assert names[..1] == [a] && [a][..0] == [];
    assert Group(names, k) == [a, b];
    assert PrefixMapAsWritten([a]) == None;
  }

  /** For instance `toString_a` and `toString_b`. */
  lemma {:induction false} ToStringPairThrows()
    ensures "toString" in Pairs(["toString" + "_a", "toString" + "_b"])
    ensures PrefixMapAsWritten(["toString" + "_a", "toString" + "_b"]) == None
  {
    var k, x, y := "toString", "a", "b";
    InheritedKeyThrows(k, x, y);
    AppendAssoc(k, "_", x);
    AppendAssoc(k, "_", y);
    assert "_" + x == "_a" && "_" + y == "_b";
  }

  /** A shared prefix does not change how two names compare. */
  lemma {:induction false} LexPrefix(p: string, a: string, b: string)
    requires LexLessEq(a, b)
    ensures LexLessEq(p + a, p + b)
  {
    if p != [] {
      var pa, pb := p + a, p + b;
      assert pa[1..] == p[1..] + a && pb[1..] == p[1..] + b;
      assert pa[0] == p[0] == pb[0];
      LexPrefix(p[1..], a, b);
    } else {
      assert p + a == a && p + b == b;
    }
  }

  /** A name `k_x` whose last token `x` has no underscore is filed under `k`. */
  lemma {:induction false} FiledUnder(k: string, x: string)
    requires '_' !in x
    ensures InGroup(k + "_" + x, k)
  {
    var n := k + "_" + x;
    KeyUnique(n, k, x);
    assert n[|k|] == '_';
    SplitCount(n);
  }

  lemma {:induction false} ScenarioGroups(ka: string, kb: string, l: string, r: string, k: string)
    requires ka != kb && '_' !in l && '_' !in r
    ensures var names := [ka + "_" + l, ka + "_" + r, kb + "_" + l, kb + "_" + r];
            Group(names, k) == if k == ka then names[..2] else if k == kb then names[2..] else []
  {
    var a1, a2, b1, b2 := ka + "_" + l, ka + "_" + r, kb + "_" + l, kb + "_" + r;
    FiledUnder(ka, l);
    FiledUnder(ka, r);
    FiledUnder(kb, l);
    FiledUnder(kb, r);
    var names := [a1, a2, b1, b2];
    assert names == [a1, a2] + [b1, b2];
    GroupAppend([a1, a2], [b1, b2], k);
    GroupOfOneKey([a1, a2], ka, k);
    GroupOfOneKey([b1, b2], kb, k);
  }

  lemma {:induction false} DiscoveredSnoc(init: seq<string>, name: string)
    ensures
      var keys, k := Discovered(init), GroupKey(name);
      Discovered(init + [name]) == if HasKey(name) && k !in keys then keys + [k] else keys
  {
    var names := init + [name];
    assert names[..|names| - 1] == init;
  }

  lemma {:induction false} ScenarioDiscovered(ka: string, kb: string, l: string, r: string)
    requires ka != kb && '_' !in l && '_' !in r
    ensures Discovered([ka + "_" + l, ka + "_" + r, kb + "_" + l, kb + "_" + r]) == [ka, kb]
  {
    var a1, a2, b1, b2 := ka + "_" + l, ka + "_" + r, kb + "_" + l, kb + "_" + r;
    FiledUnder(ka, l);
    FiledUnder(ka, r);
    FiledUnder(kb, l);
    FiledUnder(kb, r);
    DiscoveredOfTwoKeys(a1, a2, b1, b2, ka, kb);
  }

  /** Two names filed under one key discover that key, unless it was known. */
  lemma {:induction false} DiscoveredPair(init: seq<string>, x: string, y: string, k: string)
    requires InGroup(x, k) && InGroup(y, k)
    ensures var keys := Discovered(init);
            Discovered(init + [x, y]) == if k in keys then keys else keys + [k]
  {
    var mid := init + [x];
    DiscoveredSnoc(init, x);
    DiscoveredSnoc(mid, y);
    assert mid + [y] == init + [x, y];
  }

  /** Two names filed under one key discover just that key. */
  lemma {:induction false} DiscoveredOfOneKey(a1: string, a2: string, ka: string)
    requires InGroup(a1, ka) && InGroup(a2, ka)
    ensures Discovered([a1, a2]) == [ka]
  {
    var none: seq<string> := [];
    assert none + [a1, a2] == [a1, a2];
    assert Discovered(none) == [];
    DiscoveredPair(none, a1, a2, ka);
  }

  /** Four names filed under two keys, the first key's two names first, discover the two keys in that order. */
  lemma {:induction false} DiscoveredOfTwoKeys(a1: string, a2: string, b1: string, b2: string, ka: string, kb: string)
    requires ka != kb && InGroup(a1, ka) && InGroup(a2, ka) && InGroup(b1, kb) && InGroup(b2, kb)
    ensures Discovered([a1, a2, b1, b2]) == [ka, kb]
  {
    assert [a1, a2] + [b1, b2] == [a1, a2, b1, b2];
    assert [ka] + [kb] == [ka, kb];
    var keys := [ka];
    assert kb !in keys;
    DiscoveredOfOneKey(a1, a2, ka);
    DiscoveredPair([a1, a2], b1, b2, kb);
  }

  /**
   * Two sequences uploaded side by side, `A_left`, `A_right`, `B_left`,
   * `B_right` in general form, are found in upload order, each with its pair.
   */
  lemma {:induction false} TwoSequencesScenario(ka: string, kb: string, l: string, r: string)
    requires ka != kb && '_' !in l && '_' !in r && LexLessEq(l, r)
    ensures var names := [ka + "_" + l, ka + "_" + r, kb + "_" + l, kb + "_" + r];
            Discovered(names) == [ka, kb]
            && Pairs(names) == map[ka := names[..2], kb := names[2..]]
  {
    ScenarioDiscovered(ka, kb, l, r);
    ScenarioPairs(ka, kb, l, r);
  }

  lemma {:induction false} PairsOfTwoGroupsAt(names: seq<string>, ka: string, ga: seq<string>, kb: string, gb: seq<string>, k: string)
    requires ka != kb && |ga| == 2 && |gb| == 2
    requires LexLessEq(ga[0], ga[1]) && LexLessEq(gb[0], gb[1])
    requires Group(names, k) == if k == ka then ga else if k == kb then gb else []
    ensures var m, expected := Pairs(names), map[ka := ga, kb := gb];
            (k in m <==> k in expected) && (k in m ==> m[k] == expected[k])
  {
    var m := Pairs(names);
    if k == ka {
      assert m[k] == SortPair(ga) == ga;
    } else if k == kb {
      assert m[k] == SortPair(gb) == gb;
    } else {
      assert k !in m;
    }
  }

  /** Two groups of two, each already in order, are the pairs found. */
  lemma {:induction false} PairsOfTwoGroups(names: seq<string>, ka: string, ga: seq<string>, kb: string, gb: seq<string>)
    requires ka != kb && |ga| == 2 && |gb| == 2
    requires LexLessEq(ga[0], ga[1]) && LexLessEq(gb[0], gb[1])
    requires forall k :: Group(names, k) == if k == ka then ga else if k == kb then gb else []
    ensures Pairs(names) == map[ka := ga, kb := gb]
  {
    var m, expected := Pairs(names), map[ka := ga, kb := gb];
    forall k ensures (k in m <==> k in expected) && (k in m ==> m[k] == expected[k]) {
      PairsOfTwoGroupsAt(names, ka, ga, kb, gb, k);
    }
    MapExt(m, expected);
  }

  lemma {:induction false} ScenarioPairs(ka: string, kb: string, l: string, r: string)
    requires ka != kb && '_' !in l && '_' !in r && LexLessEq(l, r)
    ensures var names := [ka + "_" + l, ka + "_" + r, kb + "_" + l, kb + "_" + r];
            Pairs(names) == map[ka := names[..2], kb := names[2..]]
  {
    var names := [ka + "_" + l, ka + "_" + r, kb + "_" + l, kb + "_" + r];
    forall k ensures Group(names, k) == if k == ka then names[..2] else if k == kb then names[2..] else [] {
      ScenarioGroups(ka, kb, l, r, k);
    }
    LexPrefix(ka + "_", l, r);
    LexPrefix(kb + "_", l, r);
    PairsOfTwoGroups(names, ka, names[..2], kb, names[2..]);
  }
}
