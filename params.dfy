/**
 * Request parameters: a `std::map<string, string>`, iterated in key order,
 * and the `k=v&k=v` string the client builds from it.
 */
module Params {

  /** `std::string`'s `operator<`: lexicographic, a proper prefix first. */
  predicate Less(a: string, b: string)
  {
    if a == [] then b != []
    else if b == [] then false
    else if a[0] != b[0] then a[0] < b[0]
    else Less(a[1..], b[1..])
  }

  lemma {:induction false} LessIrreflexive(a: string)
    ensures !Less(a, a)
  {
    if a != [] {
      LessIrreflexive(a[1..]);
    }
  }

  lemma {:induction false} LessAsymmetric(a: string, b: string)
    requires Less(a, b)
    ensures !Less(b, a)
  {
    if a != [] && b != [] && a[0] == b[0] {
      LessAsymmetric(a[1..], b[1..]);
    }
  }

  lemma {:induction false} LessTransitive(a: string, b: string, c: string)
    requires Less(a, b) && Less(b, c)
    ensures Less(a, c)
  {
    if a != [] && b != [] && c != [] && a[0] == b[0] && b[0] == c[0] {
      LessTransitive(a[1..], b[1..], c[1..]);
    }
  }

  lemma {:induction false} LessTotal(a: string, b: string)
    requires a != b
    ensures Less(a, b) || Less(b, a)
  {
    if a != [] && b != [] && a[0] == b[0] {
      assert a == [a[0]] + a[1..] && b == [b[0]] + b[1..];
      LessTotal(a[1..], b[1..]);
    }
  }

  predicate IsMinimum(m: string, s: set<string>) {
    m in s && forall x :: x in s && x != m ==> Less(m, x)
  }

  lemma {:induction false} MinimumExists(s: set<string>)
    requires s != {}
    ensures exists m :: IsMinimum(m, s)
    decreases |s|
  {
    var x :| x in s;
    if s != {x} {
      var rest := s - {x};
      MinimumExists(rest);
      var m :| IsMinimum(m, rest);
      if Less(m, x) {
        assert IsMinimum(m, s);
      } else {
        LessTotal(m, x);
        forall y | y in s && y != x
          ensures Less(x, y)
        {
          if y != m {
            LessTransitive(x, m, y);
          }
        }
        assert IsMinimum(x, s);
      }
    } else {
      assert IsMinimum(x, s);
    }
  }

  ghost predicate StrictlySorted(ks: seq<string>) {
    forall i, j :: 0 <= i < j < |ks| ==> Less(ks[i], ks[j])
  }

  /** The keys of a map in the order `std::map` iterates over them. */
  ghost function SortedKeys(s: set<string>): (ks: seq<string>)
    ensures StrictlySorted(ks)
    ensures |ks| == |s|
    ensures forall k :: k in ks <==> k in s
    decreases |s|
  {
    if s == {} then []
    else
      MinimumExists(s);
      var m :| IsMinimum(m, s);
      var rest := SortedKeys(s - {m});
      ConsSorted(m, rest);
      [m] + rest
  }

  lemma ConsSorted(m: string, rest: seq<string>)
    requires StrictlySorted(rest)
    requires forall k :: k in rest ==> Less(m, k)
    ensures StrictlySorted([m] + rest)
  {
    var ks := [m] + rest;
    forall i, j | 0 <= i < j < |ks|
      ensures Less(ks[i], ks[j])
    {
      if i == 0 {
        assert ks[j] == rest[j - 1];
      } else {
        assert ks[i] == rest[i - 1] && ks[j] == rest[j - 1];
      }
    }
  }

  /** A strictly sorted sequence is determined by its elements. */
  lemma {:induction false} SortedUnique(a: seq<string>, b: seq<string>)
    requires StrictlySorted(a) && StrictlySorted(b)
    requires forall k :: k in a <==> k in b
    ensures a == b
  {
    if a == [] {
      FirstIsMember(b);
    } else {
      assert a[0] in b;
      assert b[0] in a;
      if a[0] != b[0] {
        HeadIsLeast(a, b[0]);
        HeadIsLeast(b, a[0]);
        LessAsymmetric(a[0], b[0]);
      }
      assert a[0] == b[0];
      forall k
        ensures k in a[1..] <==> k in b[1..]
      {
        TailMembers(a, k);
        TailMembers(b, k);
      }
      SortedUnique(a[1..], b[1..]);
      assert a == [a[0]] + a[1..] && b == [b[0]] + b[1..];
    }
  }

  lemma FirstIsMember(b: seq<string>)
    ensures b != [] ==> b[0] in b
  {
  }

  lemma HeadIsLeast(a: seq<string>, k: string)
    requires StrictlySorted(a) && k in a && k != a[0]
    ensures Less(a[0], k)
  {
    var i :| 0 <= i < |a| && a[i] == k;
  }

  lemma TailMembers(a: seq<string>, k: string)
    requires StrictlySorted(a) && a != []
    ensures k in a[1..] <==> k in a && k != a[0]
  {
    if k in a[1..] {
      var i :| 1 <= i < |a| && a[i] == k;
      LessIrreflexive(k);
      assert Less(a[0], a[i]);
    }
    if k in a && k != a[0] {
      var i :| 0 <= i < |a| && a[i] == k;
      assert a[1..][i - 1] == k;
    }
  }

  /** `s` joined on `sep` (never applied to the empty sequence). */
  function Join(parts: seq<string>, sep: char): string
  {
    if parts == [] then ""
    else if |parts| == 1 then parts[0]
    else Join(parts[..|parts| - 1], sep) + [sep] + parts[|parts| - 1]
  }

  /** The position of the last `sep` in `s`, or -1. */
  function LastIndexOf(s: string, sep: char): (r: int)
    ensures -1 <= r < |s|
    ensures r >= 0 ==> s[r] == sep
    ensures forall k :: r < k < |s| ==> s[k] != sep
  {
    if s == [] then -1
    else if s[|s| - 1] == sep then |s| - 1
    else LastIndexOf(s[..|s| - 1], sep)
  }

  /** The last separator is the one after which no other follows. */
  lemma LastIndexOfIs(s: string, sep: char, i: int)
    requires 0 <= i < |s| && s[i] == sep
    requires forall k :: i < k < |s| ==> s[k] != sep
    ensures LastIndexOf(s, sep) == i
  {
  }

  /** `s` cut at every `sep`. */
  function Split(s: string, sep: char): (parts: seq<string>)
    ensures |parts| >= 1
    decreases |s|
  {
    var i := LastIndexOf(s, sep);
    if i < 0 then [s] else Split(s[..i], sep) + [s[i + 1..]]
  }

  lemma JoinSnoc(ps: seq<string>, p: string, sep: char)
    ensures Join(ps + [p], sep) == if ps == [] then p else Join(ps, sep) + [sep] + p
  {
    assert (ps + [p])[..|ps|] == ps;
  }

  lemma {:induction false} SplitJoin(parts: seq<string>, sep: char)
    requires parts != []
    requires forall i :: 0 <= i < |parts| ==> sep !in parts[i]
    ensures Split(Join(parts, sep), sep) == parts
  {
    if |parts| > 1 {
      var init, last := parts[..|parts| - 1], parts[|parts| - 1];
      var j := Join(init, sep);
      var s := j + [sep] + last;
      assert Join(parts, sep) == s;
      forall k | |j| < k < |s|
        ensures s[k] != sep
      {
        assert s[k] == last[k - |j| - 1];
      }
      LastIndexOfIs(s, sep, |j|);
      assert s[..|j|] == j;
      assert s[|j| + 1..] == last;
      SplitJoin(init, sep);
      assert parts == init + [last];
    }
  }

  /** `escape(k)=escape(v)` for one parameter. */
  function Pair(k: string, v: string, escape: string -> string): string
  {
    escape(k) + "=" + escape(v)
  }

  ghost function Pairs(params: map<string, string>, ks: seq<string>, escape: string -> string): (ps: seq<string>)
    requires forall k :: k in ks ==> k in params
    ensures |ps| == |ks|
    ensures forall i :: 0 <= i < |ks| ==> ps[i] == Pair(ks[i], params[ks[i]], escape)
  {
    seq(|ks|, i requires 0 <= i < |ks| => Pair(ks[i], params[ks[i]], escape))
  }

  /** The string `UrlEscapeAndJoinParams` builds: the pairs in key order, joined on '&'. */
  ghost function JoinedParams(params: map<string, string>, escape: string -> string): string
  {
    Join(Pairs(params, SortedKeys(params.Keys), escape), '&')
  }

  method UrlEscapeAndJoinParams(params: map<string, string>, escape: string -> string) returns (r: string)
    ensures r == JoinedParams(params, escape)
  {
    r := "";
    var first := true;
    var rest := params.Keys;
    ghost var done: seq<string> := [];
    while rest != {}
      invariant rest <= params.Keys
      invariant Progress(done, rest, params.Keys)
      invariant first <==> done == []
      invariant r == Join(Pairs(params, done, escape), '&')
      decreases |rest|
    {
      MinimumExists(rest);
      var k :| IsMinimum(k, rest);
      ProgressStep(done, rest, params.Keys, k);
      PairsSnoc(params, done, k, escape);
      JoinSnoc(Pairs(params, done, escape), Pair(k, params[k], escape), '&');
      var pair := escape(k) + "=" + escape(params[k]);
      assert pair == Pair(k, params[k], escape);
      if first {
        first := false;
      } else {
        r := r + "&";
      }
      r := r + pair;
      done := done + [k];
      rest := rest - {k};
    }
    SortedUnique(done, SortedKeys(params.Keys));
  }

  /** `done` lists, in order, the keys already visited: all those not in `rest`, each below every key in `rest`. */
  ghost predicate Progress(done: seq<string>, rest: set<string>, keys: set<string>) {
    && StrictlySorted(done)
    && (forall x :: x in done <==> x in keys && x !in rest)
    && (forall i, y :: 0 <= i < |done| && y in rest ==> Less(done[i], y))
  }

  lemma ProgressStep(done: seq<string>, rest: set<string>, keys: set<string>, k: string)
    requires rest <= keys && Progress(done, rest, keys) && IsMinimum(k, rest)
    ensures Progress(done + [k], rest - {k}, keys)
  {
    var d := done + [k];
    forall i, j | 0 <= i < j < |d|
      ensures Less(d[i], d[j])
    {
      if j < |done| {
        assert d[i] == done[i] && d[j] == done[j];
      } else {
        assert d[i] == done[i];
      }
    }
    forall i, y | 0 <= i < |d| && y in rest - {k}
      ensures Less(d[i], y)
    {
      if i < |done| {
        assert d[i] == done[i];
      }
    }
  }

  lemma PairsSnoc(params: map<string, string>, ks: seq<string>, k: string, escape: string -> string)
    requires forall x :: x in ks ==> x in params
    requires k in params
    ensures Pairs(params, ks + [k], escape) == Pairs(params, ks, escape) + [Pair(k, params[k], escape)]
  {
  }

  /** evhttp_uriencode escapes the two separators; this is what the format relies on. */
  ghost predicate EscapesSeparators(escape: string -> string) {
    forall s :: '&' !in escape(s) && '=' !in escape(s)
  }

  /** The position of the first `c` in `s`, or |s|. */
  function IndexOf(s: string, c: char): (r: nat)
    ensures r <= |s|
    ensures forall k :: 0 <= k < r ==> s[k] != c
    ensures r < |s| ==> s[r] == c
  {
    if s == [] || s[0] == c then 0 else IndexOf(s[1..], c) + 1
  }

  /** How the store reads one `name=value` parameter. */
  function SplitPair(p: string): (string, string)
  {
    var i := IndexOf(p, '=');
    if i < |p| then (p[..i], p[i + 1..]) else (p, "")
  }

  /** How the store reads a query string or form body. */
  function ParseParams(q: string): seq<(string, string)>
  {
    if q == [] then []
    else
      var parts := Split(q, '&');
      seq(|parts|, i requires 0 <= i < |parts| => SplitPair(parts[i]))
  }

  lemma SplitPairOf(a: string, b: string)
    requires '=' !in a
    ensures SplitPair(a + "=" + b) == (a, b)
  {
    var s := a + "=" + b;
    assert s[|a|] == '=';
    assert forall k :: 0 <= k < |a| ==> s[k] == a[k];
    assert IndexOf(s, '=') == |a|;
    assert s[..|a|] == a && s[|a| + 1..] == b;
  }

  /**
   * The joined string carries each parameter exactly once, in key order,
   * and reads back as the escaped names and values.
   */
  lemma ParseJoinedParams(params: map<string, string>, escape: string -> string)
    requires EscapesSeparators(escape)
    ensures var ks := SortedKeys(params.Keys);
      ParseParams(JoinedParams(params, escape))
        == seq(|ks|, i requires 0 <= i < |ks| => (escape(ks[i]), escape(params[ks[i]])))
  {
    var ks := SortedKeys(params.Keys);
    var ps := Pairs(params, ks, escape);
    var expected := seq(|ks|, i requires 0 <= i < |ks| => (escape(ks[i]), escape(params[ks[i]])));
    var parsed := ParseParams(JoinedParams(params, escape));
    if ks == [] {
      assert JoinedParams(params, escape) == "";
      assert parsed == [] == expected;
    } else {
      forall i | 0 <= i < |ps|
        ensures '&' !in ps[i] && ps[i] != []
      {
        PairShape(ks[i], params[ks[i]], escape);
      }
      JoinNonEmpty(ps, '&');
      SplitJoin(ps, '&');
      assert |parsed| == |expected|;
      forall i | 0 <= i < |ps|
        ensures parsed[i] == expected[i]
      {
        SplitPairOf(escape(ks[i]), escape(params[ks[i]]));
      }
      assert parsed == expected;
    }
  }

  lemma PairShape(k: string, v: string, escape: string -> string)
    requires EscapesSeparators(escape)
    ensures '&' !in Pair(k, v, escape) && Pair(k, v, escape) != []
  {
    assert '&' !in escape(k) && '&' !in escape(v);
  }

  lemma {:induction false} JoinNonEmpty(ps: seq<string>, sep: char)
    requires ps != []
    requires forall i :: 0 <= i < |ps| ==> ps[i] != []
    ensures Join(ps, sep) != []
  {
    if |ps| > 1 {
      assert ps[|ps| - 1] != [];
    }
  }

  /** The string is empty exactly when there are no parameters. */
  lemma JoinedParamsEmpty(params: map<string, string>, escape: string -> string)
    ensures JoinedParams(params, escape) == "" <==> params == map[]
  {
    var ks := SortedKeys(params.Keys);
    var ps := Pairs(params, ks, escape);
    if ks != [] {
      forall i | 0 <= i < |ps|
        ensures ps[i] != []
      {
        assert ps[i][|escape(ks[i])|] == '=';
      }
      JoinNonEmpty(ps, '&');
      assert ks[0] in params;
    } else {
      assert params.Keys == {};
    }
  }
}
