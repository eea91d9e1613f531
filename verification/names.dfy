/**
 * String operations the tool applies to image file names: `name.split("_")`,
 * `parts.join("_")`, the grouping key made of all tokens but the last, and the
 * order in which the default `Array.prototype.sort` compares two names.
 */
module Names {

  /** `s.split("_")`: the runs of `s` between underscores, in order. */
  function Split(s: string): (parts: seq<string>)
    ensures |parts| >= 1
    ensures forall i :: 0 <= i < |parts| ==> '_' !in parts[i]
  {
    if s == [] then [""]
    else
      var rest := Split(s[1..]);
      if s[0] == '_' then [""] + rest
      else [[s[0]] + rest[0]] + rest[1..]
  }

  /** `parts.join("_")`. */
  function Join(parts: seq<string>): (s: string)
    ensures |parts| == 1 ==> s == parts[0]
    ensures |parts| >= 2 ==> '_' in s
  {
    if |parts| == 0 then ""
    else if |parts| == 1 then parts[0]
    else
      var s := parts[0] + "_" + Join(parts[1..]);
      assert s[|parts[0]|] == '_';
      s
  }

  /** Splitting and joining again gives back the name. */
  lemma {:induction false} JoinSplit(s: string)
    ensures Join(Split(s)) == s
  {
    if s != [] {
      var rest := Split(s[1..]);
      JoinSplit(s[1..]);
      if s[0] == '_' {
        assert Split(s) == [""] + rest;
        assert ([""] + rest)[1..] == rest;
      } else if |rest| == 1 {
        assert Split(s) == [[s[0]] + rest[0]];
      } else {
        var parts := Split(s);
        assert parts[1..] == rest[1..];
        assert Join(rest) == rest[0] + "_" + Join(rest[1..]);
        assert s == [s[0]] + s[1..];
      }
    }
  }

  /** A name splits into two or more tokens exactly when it holds an underscore. */
  lemma {:induction false} SplitCount(s: string)
    ensures |Split(s)| >= 2 <==> '_' in s
  {
    if s != [] {
      SplitCount(s[1..]);
      assert s == [s[0]] + s[1..];
    }
  }

  /** Joining two or more tokens ends with the last one after an underscore. */
  lemma {:induction false} JoinLast(parts: seq<string>)
    requires |parts| >= 2
    ensures Join(parts) == Join(parts[..|parts| - 1]) + "_" + parts[|parts| - 1]
  {
    if |parts| > 2 {
      var tail := parts[1..];
      JoinLast(tail);
      assert tail[..|tail| - 1] == parts[1..|parts| - 1];
      assert parts[..|parts| - 1][1..] == parts[1..|parts| - 1];
    }
  }

  /** `parts.slice(0, parts.length - 1).join("_")` with `parts = name.split("_")`. */
  function GroupKey(name: string): (key: string)
    ensures '_' !in name ==> key == ""
  {
    SplitCount(name);
    var parts := Split(name);
    Join(parts[..|parts| - 1])
  }

  /** The token after the last underscore. */
  function LastToken(name: string): string
  {
    var parts := Split(name);
    parts[|parts| - 1]
  }

  /** A name with an underscore is its key, an underscore, and a last token free of underscores. */
  lemma {:induction false} KeyShape(name: string)
    requires '_' in name
    ensures name == GroupKey(name) + "_" + LastToken(name)
    ensures '_' !in LastToken(name)
  {
    SplitCount(name);
    JoinLast(Split(name));
    JoinSplit(name);
  }

  /** The key is the part of the name before its last underscore, and nothing else. */
  lemma {:induction false} KeyUnique(name: string, prefix: string, suffix: string)
    requires name == prefix + "_" + suffix
    requires '_' !in suffix
    ensures GroupKey(name) == prefix
  {
    assert name[|prefix|] == '_';
    KeyShape(name);
    var key, last := GroupKey(name), LastToken(name);
    assert name[|name| - |suffix| - 1] == '_' && name[|name| - |last| - 1] == '_';
    assert forall i :: |name| - |last| <= i < |name| ==> name[i] == last[i - (|name| - |last|)];
    assert forall i :: |name| - |suffix| <= i < |name| ==> name[i] == suffix[i - (|name| - |suffix|)];
    assert |last| == |suffix|;
    assert |key| == |prefix|;
    assert key == name[..|key|] == prefix;
  }

  /**
   * The order the default `sort` puts two names in: character by character,
   * a proper prefix first.
   */
  predicate LexLessEq(a: string, b: string)
  {
    a == [] || (b != [] && (a[0] < b[0] || (a[0] == b[0] && LexLessEq(a[1..], b[1..]))))
  }

  /** Any two names are ordered one way or the other. */
  lemma {:induction false} LexTotal(a: string, b: string)
    ensures LexLessEq(a, b) || LexLessEq(b, a)
  {
    if a != [] && b != [] && a[0] == b[0] {
      LexTotal(a[1..], b[1..]);
    }
  }

  /** Two names ordered both ways are equal. */
  lemma {:induction false} LexAntisymmetric(a: string, b: string)
    requires LexLessEq(a, b) && LexLessEq(b, a)
    ensures a == b
  {
    if a != [] && b != [] {
      LexAntisymmetric(a[1..], b[1..]);
      assert a == [a[0]] + a[1..] && b == [b[0]] + b[1..];
    }
  }
}
