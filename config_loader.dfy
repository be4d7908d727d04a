/**
  Loading and checking the configuration (config/loader.go).

  koanf keeps the configuration as a map from dotted keys to values; the
  model keeps it flat, one entry per key, and merges the layers in the
  order `Load` loads them: defaults, the YAML file, the environment, the
  command-line flags. Reading and parsing the file and decoding the merged
  map into a `Config` are done by libraries and appear as function
  parameters.
 */
module ConfigLoader {
  import opened Wrappers
  import opened Sets
  import opened GoStrings
  import opened GoTime
  import Strconv
  import opened ConfigTypes

  /** A configuration value as koanf holds it. */
  datatype Value =
    | Nil
    | Text(s: string)
    | Int(i: int)
    | Bool(b: bool)
    | List(items: seq<Value>)
    | Dict(entries: map<string, Value>)

  const EnvPrefix: string := "ATLAS_"

  /** The key under which the list of measurements is configured. */
  const MeasurementsKey: string := "measurements"

  // ---------------------------------------------------------------------
  // Environment keys

  /**
    `envTransform`: upper-case the variable name, strip one leading ATLAS_,
    lower-case the rest and turn every "__" into the key separator ".".
    The value passes through unchanged.
   */
  function EnvTransform(k: string, v: string): (r: (string, string))
    ensures r.1 == v
  {
    (Join(Split(EnvSegmentsText(k), "__"), "."), v)
  }

  /** The name with its case folded and one ATLAS_ prefix removed, before separators are rewritten. */
  function EnvSegmentsText(k: string): string {
    ToLower(TrimPrefix(ToUpper(k), EnvPrefix))
  }

  lemma NoDotAfterCaseMapping(k: string)
    requires '.' !in k
    ensures '.' !in EnvSegmentsText(k)
  {
    var u := ToUpper(k);
    var t := TrimPrefix(u, EnvPrefix);
    assert forall c :: c in u ==> c != '.' by {
      forall c | c in u
        ensures c != '.'
      {
        var i :| 0 <= i < |u| && u[i] == c;
        assert k[i] in k;
      }
    }
    assert forall c :: c in t ==> c in u by {
      if HasPrefix(u, EnvPrefix) {
        assert t == u[|EnvPrefix|..];
      }
    }
    forall c | c in ToLower(t)
      ensures c != '.'
    {
      var i :| 0 <= i < |t| && ToLower(t)[i] == c;
      assert t[i] in t;
    }
  }

  /**
    The rewriting loses nothing for names without a dot: turning every "."
    of the key back into "__" gives the case-folded, prefix-stripped name.
   */
  lemma EnvTransformReversible(k: string, v: string)
    requires '.' !in k
    ensures Join(Split(EnvTransform(k, v).0, "."), "__") == EnvSegmentsText(k)
  {
    var text := EnvSegmentsText(k);
    var parts := Split(text, "__");
    NoDotAfterCaseMapping(k);
    SplitPiecesFromInput(text, "__");
    assert forall i :: 0 <= i < |parts| ==> '.' !in parts[i] by {
      forall i | 0 <= i < |parts|
        ensures '.' !in parts[i]
      {
        assert parts[i] in parts;
      }
    }
    SplitJoin(parts, '.');
    JoinSplit(text, "__");
  }

  /** Single underscores stay inside a segment: without "__" there is nothing to rewrite. */
  lemma EnvTransformKeepsSingleUnderscores(k: string, v: string)
    requires !Contains(EnvSegmentsText(k), "__")
    ensures EnvTransform(k, v).0 == EnvSegmentsText(k)
  {
    SplitWithoutSeparator(EnvSegmentsText(k), "__");
  }

  /**
    The prefix is matched whatever its letter case, and what follows it is
    lower-cased.
   */
  lemma EnvSegmentsOfPrefixed(prefix: string, rest: string)
    requires ToUpper(prefix) == EnvPrefix
    ensures EnvSegmentsText(prefix + rest) == ToLower(rest)
  {
    var u := ToUpper(prefix + rest);
    assert u == EnvPrefix + ToUpper(rest) by {
      assert forall i :: 0 <= i < |prefix| ==> u[i] == ToUpper(prefix)[i];
    }
    assert TrimPrefix(u, EnvPrefix) == ToUpper(rest) by {
      assert u[..|EnvPrefix|] == EnvPrefix;
    }
  }

  /**
    A name made of two segments joined by "__", the first without any
    underscore and the second without a double one, becomes the two
    segments joined by "." (ATLAS_WEB__LISTEN_ADDRESS becomes
    web.listen_address).
   */
  lemma EnvTransformTwoSegments(k: string, v: string, first: string, second: string)
    requires EnvSegmentsText(k) == first + "__" + second
    requires '_' !in first && !Contains(second, "__")
    ensures EnvTransform(k, v) == (first + "." + second, v)
  {
    SplitAtFirst(first, "__", second);
    SplitWithoutSeparator(second, "__");
    assert Split(EnvSegmentsText(k), "__") == [first, second];
    assert Join([first, second], ".") == first + "." + Join([second], ".");
  }

  // ---------------------------------------------------------------------
  // Index-keyed maps

  /** The array index a map key stands for: a decimal integer that is not negative. */
  function IndexOf(key: string): (r: Option<nat>)
    ensures r.Some? <==> Strconv.Atoi(key).Some? && Strconv.Atoi(key).value >= 0
    ensures r.Some? ==> r.value == Strconv.Atoi(key).value
  {
    match Strconv.Atoi(key)
    case Some(i) => if i >= 0 then Some(i) else None
    case None => None
  }

  predicate HasIndexKey(m: map<string, Value>) {
    exists key :: key in m && IndexOf(key).Some?
  }

  /**
    `items` is the array an index-keyed map stands for: it is as long as the
    largest index plus one, the slot of every index holds the value under a
    key for that index, and a slot no key names is nil. Keys that are not
    indexes are dropped.
   */
  ghost predicate IsArrayOf(m: map<string, Value>, items: seq<Value>) {
    && (forall key :: key in m && IndexOf(key).Some? ==> IndexOf(key).value < |items|)
    && (exists key :: key in m && IndexOf(key) == Some(|items| - 1))
    && (forall i :: 0 <= i < |items| ==>
          || (exists key :: key in m && IndexOf(key) == Some(i) && items[i] == m[key])
          || (items[i] == Nil && forall key :: key in m ==> IndexOf(key) != Some(i)))
  }

  /** `arr` holds a pair for every index key of `m`, and `keys[j]` is the key of pair `j`. */
  ghost predicate EntriesOf(m: map<string, Value>, arr: seq<(nat, Value)>, keys: seq<string>) {
    && |keys| == |arr|
    && (forall j :: 0 <= j < |arr| ==> keys[j] in m && IndexOf(keys[j]) == Some(arr[j].0) && arr[j].1 == m[keys[j]])
    && (forall key :: key in m && IndexOf(key).Some? ==> key in keys)
  }

  /**
    Every slot of `out` holds the value of some pair for its index, or is nil
    when no pair has that index.
   */
  ghost predicate SlotsFilled(arr: seq<(nat, Value)>, out: seq<Value>) {
    forall i :: 0 <= i < |out| ==>
      || (exists j :: 0 <= j < |arr| && arr[j].0 == i && out[i] == arr[j].1)
      || (out[i] == Nil && forall j :: 0 <= j < |arr| ==> arr[j].0 != i)
  }

  /**
    The first loop of `normalizeArrays`: the (index, value) pairs of the
    index keys, in map order. `keys` records which key each pair came from.
   */
  method IndexedEntries(m: map<string, Value>) returns (arr: seq<(nat, Value)>, ghost keys: seq<string>)
    ensures EntriesOf(m, arr, keys)
  {
    arr := [];
    keys := [];
    var left := m.Keys;
    while left != {}
      invariant left <= m.Keys
      invariant |keys| == |arr|
      invariant forall j :: 0 <= j < |arr| ==> keys[j] in m && IndexOf(keys[j]) == Some(arr[j].0) && arr[j].1 == m[keys[j]]
      invariant forall key :: key in m && key !in left && IndexOf(key).Some? ==> key in keys
      decreases left
    {
      ghost var some := NonEmptyHasMember(left);
      var ks :| ks in left;
      var idx := -1;
      match Strconv.Atoi(ks) {
        case Some(i) => idx := i;
        case None =>
      }
      if idx >= 0 {
        arr := arr + [(idx, m[ks])];
        keys := keys + [ks];
      }
      left := left - {ks};
    }
  }

  /**
    The largest index among the pairs: the index of the last pair once
    `sort.Slice` has ordered them by index.
   */
  method LargestIndex(arr: seq<(nat, Value)>) returns (top: nat)
    requires |arr| > 0
    ensures forall j :: 0 <= j < |arr| ==> arr[j].0 <= top
    ensures exists j :: 0 <= j < |arr| && arr[j].0 == top
  {
    top := arr[0].0;
    var at := 0;
    for j := 1 to |arr|
      invariant 0 <= at < |arr| && arr[at].0 == top
      invariant forall i :: 0 <= i < j ==> arr[i].0 <= top
    {
      if arr[j].0 > top {
        top := arr[j].0;
        at := j;
      }
    }
  }

  /** The second loop of `normalizeArrays`: write every pair into a slice of `n` nils. */
  method FillSlots(arr: seq<(nat, Value)>, n: nat) returns (out: seq<Value>)
    ensures |out| == n
    ensures SlotsFilled(arr, out)
  {
    out := seq(n, _ => Nil);
    for j := 0 to |arr|
      invariant |out| == n
      invariant forall i :: 0 <= i < n ==>
        || (exists j' :: 0 <= j' < j && arr[j'].0 == i && out[i] == arr[j'].1)
        || (out[i] == Nil && forall j' :: 0 <= j' < j ==> arr[j'].0 != i)
    {
      var e := arr[j];
      if e.0 < |out| {
        out := out[e.0 := e.1];
      }
    }
  }

  /**
    The conversion at the heart of `normalizeArrays`: `found` tells whether
    the map has any index key; if it has, `items` is the array it stands for.
   */
  method ToArray(m: map<string, Value>) returns (found: bool, items: seq<Value>)
    ensures found <==> HasIndexKey(m)
    ensures found ==> IsArrayOf(m, items)
  {
    var arr;
    ghost var keys;
    arr, keys := IndexedEntries(m);
    found := |arr| > 0;
    items := [];
    if !found {
      return;
    }
    assert keys[0] in m && IndexOf(keys[0]).Some?;
    var top := LargestIndex(arr);
    items := FillSlots(arr, top + 1);
    ArrayOfSlots(m, arr, keys, top, items);
  }

  lemma ArrayOfSlots(m: map<string, Value>, arr: seq<(nat, Value)>, keys: seq<string>, top: nat, items: seq<Value>)
    requires EntriesOf(m, arr, keys)
    requires forall j :: 0 <= j < |arr| ==> arr[j].0 <= top
    requires exists j :: 0 <= j < |arr| && arr[j].0 == top
    requires |items| == top + 1 && SlotsFilled(arr, items)
    ensures IsArrayOf(m, items)
  {
    SlotsBoundIndexes(m, arr, keys, top);
    SlotsEndAtLargest(m, arr, keys, top, items);
    SlotsHoldValues(m, arr, keys, items);
  }

  lemma SlotsBoundIndexes(m: map<string, Value>, arr: seq<(nat, Value)>, keys: seq<string>, top: nat)
    requires EntriesOf(m, arr, keys)
    requires forall j :: 0 <= j < |arr| ==> arr[j].0 <= top
    ensures forall key :: key in m && IndexOf(key).Some? ==> IndexOf(key).value < top + 1
  {
    forall key | key in m && IndexOf(key).Some?
      ensures IndexOf(key).value < top + 1
    {
      var j :| 0 <= j < |keys| && keys[j] == key;
      assert arr[j].0 <= top;
    }
  }

  lemma SlotsEndAtLargest(m: map<string, Value>, arr: seq<(nat, Value)>, keys: seq<string>, top: nat, items: seq<Value>)
    requires EntriesOf(m, arr, keys)
    requires exists j :: 0 <= j < |arr| && arr[j].0 == top
    requires |items| == top + 1
    ensures exists key :: key in m && IndexOf(key) == Some(|items| - 1)
  {
    var jt :| 0 <= jt < |arr| && arr[jt].0 == top;
    assert keys[jt] in m && IndexOf(keys[jt]) == Some(|items| - 1);
  }

  lemma SlotsHoldValues(m: map<string, Value>, arr: seq<(nat, Value)>, keys: seq<string>, items: seq<Value>)
    requires EntriesOf(m, arr, keys)
    requires SlotsFilled(arr, items)
    ensures forall i :: 0 <= i < |items| ==>
      || (exists key :: key in m && IndexOf(key) == Some(i) && items[i] == m[key])
      || (items[i] == Nil && forall key :: key in m ==> IndexOf(key) != Some(i))
  {
    forall i | 0 <= i < |items|
      ensures || (exists key :: key in m && IndexOf(key) == Some(i) && items[i] == m[key])
              || (items[i] == Nil && forall key :: key in m ==> IndexOf(key) != Some(i))
    {
      if exists j :: 0 <= j < |arr| && arr[j].0 == i && items[i] == arr[j].1 {
        var j :| 0 <= j < |arr| && arr[j].0 == i && items[i] == arr[j].1;
        assert keys[j] in m && IndexOf(keys[j]) == Some(i) && items[i] == m[keys[j]];
      }
    }
  }

  // ---------------------------------------------------------------------
  // The nested view of the flat key space

  /** The first segment of a dotted key: everything before its first '.'. */
  function Head(k: string): (h: string)
    ensures '.' !in h
    ensures |h| <= |k| && k[..|h|] == h
    ensures |h| < |k| ==> k[|h|] == '.'
  {
    if k == [] || k[0] == '.' then [] else [k[0]] + Head(k[1..])
  }

  /** The keys of `m` below `p`, with the leading "p." removed. */
  function Under(m: map<string, Value>, p: string): (u: map<string, Value>)
    ensures forall r :: r in u <==> p + "." + r in m
    ensures forall r :: r in u ==> u[r] == m[p + "." + r]
  {
    var below := set k | k in m && HasPrefix(k, p + ".") :: k[|p| + 1..];
    assert forall r :: r in below <==> p + "." + r in m by {
      forall r
        ensures r in below <==> p + "." + r in m
      {
        if p + "." + r in m {
          assert (p + "." + r)[..|p| + 1] == p + ".";
          assert (p + "." + r)[|p| + 1..] == r;
        }
        if r in below {
          var k :| k in m && HasPrefix(k, p + ".") && k[|p| + 1..] == r;
          assert k == k[..|p| + 1] + k[|p| + 1..];
        }
      }
    }
    map r | r in below :: m[p + "." + r]
  }

  /** The first segments of the keys of `m`. */
  function Heads(m: map<string, Value>): set<string> {
    set k | k in m :: Head(k)
  }

  /** The length of the longest key, 0 for none. */
  ghost function MaxLen(keys: set<string>): (n: nat)
    ensures forall k :: k in keys ==> |k| <= n
    ensures keys != {} ==> exists k :: k in keys && |k| == n
    decreases keys
  {
    if keys == {} then 0
    else
      var k :| k in keys;
      var rest := MaxLen(keys - {k});
      if |k| >= rest then |k| else rest
  }

  /** A first segment that is not itself a key has keys below it, all shorter. */
  lemma UnderIsShorter(m: map<string, Value>, s: string)
    requires s in Heads(m) && s !in m
    ensures Under(m, s) != map[]
    ensures MaxLen(Under(m, s).Keys) < MaxLen(m.Keys)
  {
    var k :| k in m && Head(k) == s;
    assert k != s;
    assert |s| < |k|;
    assert k == s + "." + k[|s| + 1..] by {
      assert k == k[..|s|] + [k[|s|]] + k[|s| + 1..];
    }
    assert k[|s| + 1..] in Under(m, s);
    var u := Under(m, s);
    var r :| r in u.Keys && |r| == MaxLen(u.Keys);
    assert |s + "." + r| <= MaxLen(m.Keys);
  }

  /**
    The nested map koanf presents for a flat one: an entry per first
    segment, holding the value of that key itself or, when it is not a key,
    the nested map of the keys below it.
   */
  function Nest(m: map<string, Value>): (n: map<string, Value>)
    ensures n.Keys == Heads(m)
    ensures forall s :: s in m && s in Heads(m) ==> n[s] == m[s]
    ensures forall s :: s in Heads(m) && s !in m ==> (UnderIsShorter(m, s); n[s] == Dict(Nest(Under(m, s))))
    decreases MaxLen(m.Keys)
  {
    map s | s in Heads(m) :: if s in m then m[s] else (UnderIsShorter(m, s); Dict(Nest(Under(m, s))))
  }

  /**
    koanf's `Get`: the value of the key itself or, when the key is a path
    to nested keys, the nested map below it; nil when neither.
   */
  function GetOf(data: map<string, Value>, key: string): (v: Value)
    ensures key in data ==> v == data[key]
    ensures key !in data && Under(data, key) != map[] ==> v == Dict(Nest(Under(data, key)))
    ensures key !in data && Under(data, key) == map[] ==> v == Nil
  {
    if key in data then data[key]
    else if Under(data, key) != map[] then Dict(Nest(Under(data, key)))
    else Nil
  }

  /**
    koanf's `Set`: the value replaces the key and everything nested below
    it; all other keys stay.
   */
  function SetOf(data: map<string, Value>, key: string, v: Value): (r: map<string, Value>)
    ensures key in r && r[key] == v
    ensures Under(r, key) == map[]
    ensures forall k :: k != key && !HasPrefix(k, key + ".") ==> Lookup(r, k) == Lookup(data, k)
  {
    var kept := map k | k in data && !HasPrefix(k, key + ".") :: data[k];
    kept[key := v]
  }

  /** The value reached from `v` by descending through nested maps along `path`. */
  function Walk(v: Value, path: seq<string>): Option<Value>
    decreases |path|
  {
    if path == [] then Some(v)
    else if v.Dict? && path[0] in v.entries then Walk(v.entries[path[0]], path[1..])
    else None
  }

  /** A path of key segments, none holding a dot. */
  predicate Segments(path: seq<string>) {
    forall i :: 0 <= i < |path| ==> '.' !in path[i]
  }

  /** Joining a path of two or more segments puts a dot after the first. */
  lemma JoinAfterFirst(path: seq<string>, i: nat)
    requires 1 <= i < |path|
    ensures Join(path[..i + 1], ".") == path[0] + "." + Join(path[1..][..i], ".")
  {
    assert path[..i + 1][1..] == path[1..][..i];
  }

  /**
    The nested view shows every flat key: descending along the segments of
    a key that no shorter prefix of it shadows reaches that key's value.
   */
  lemma {:induction false} NestReachesKey(m: map<string, Value>, path: seq<string>)
    requires |path| >= 1 && Segments(path)
    requires Join(path, ".") in m
    requires forall i :: 0 < i < |path| ==> Join(path[..i], ".") !in m
    ensures Walk(Dict(Nest(m)), path) == Some(m[Join(path, ".")])
    decreases |path|
  {
    var s := path[0];
    if |path| == 1 {
      HeadOfUndotted(s);
      assert Head(Join(path, ".")) == s;
    } else {
      var rest := path[1..];
      assert Join(path, ".") == s + "." + Join(rest, ".");
      HeadOfDotted(s, Join(rest, "."));
      assert Head(Join(path, ".")) == s;
      assert Join(path[..1], ".") == s by {
        assert path[..1] == [s];
      }
      var u := Under(m, s);
      forall i | 0 < i < |rest|
        ensures Join(rest[..i], ".") !in u
      {
        JoinAfterFirst(path, i);
        assert Join(path[..i + 1], ".") !in m;
      }
      assert Segments(rest) by {
        forall i | 0 <= i < |rest|
          ensures '.' !in rest[i]
        {
          assert rest[i] == path[i + 1];
        }
      }
      NestReachesKey(u, rest);
    }
  }

  /**
    Conversely, every leaf the nested view shows lies in the value of a
    flat key: the first prefix of the path that is a key.
   */
  lemma {:induction false} NestLeafIsKey(m: map<string, Value>, path: seq<string>, v: Value)
    requires |path| >= 1
    requires Walk(Dict(Nest(m)), path) == Some(v) && !v.Dict?
    ensures exists i :: (1 <= i <= |path| && Join(path[..i], ".") in m &&
                         Walk(m[Join(path[..i], ".")], path[i..]) == Some(v) &&
                         forall j :: 0 < j < i ==> Join(path[..j], ".") !in m)
    decreases |path|, 1
  {
    var s := path[0];
    assert Join(path[..1], ".") == s by {
      assert path[..1] == [s];
    }
    WalkNestStep(m, path, v);
    if s in m {
      assert Walk(m[Join(path[..1], ".")], path[1..]) == Some(v);
    } else if |path| == 1 {
      // s then holds a nested map, which is no leaf
      assert false;
    } else {
      NestLeafBelowHead(m, path, v);
    }
  }

  /** The case of `NestLeafIsKey` where the path's first segment is no key: the leaf lies below it. */
  lemma {:induction false} NestLeafBelowHead(m: map<string, Value>, path: seq<string>, v: Value)
    requires |path| >= 2 && path[0] !in m
    requires Walk(Dict(Nest(Under(m, path[0]))), path[1..]) == Some(v) && !v.Dict?
    ensures exists i :: (1 <= i <= |path| && Join(path[..i], ".") in m &&
                         Walk(m[Join(path[..i], ".")], path[i..]) == Some(v) &&
                         forall j :: 0 < j < i ==> Join(path[..j], ".") !in m)
    decreases |path|, 0
  {
    var rest := path[1..];
    var u := Under(m, path[0]);
    NestLeafIsKey(u, rest, v);
    var i :| 1 <= i <= |rest| && Join(rest[..i], ".") in u &&
      Walk(u[Join(rest[..i], ".")], rest[i..]) == Some(v) &&
      forall j :: 0 < j < i ==> Join(rest[..j], ".") !in u;
    LeafBelowHead(m, path, i, v);
  }

  /** One step down the nested view: into a key's own value, or into the nesting below a first segment. */
  lemma WalkNestStep(m: map<string, Value>, path: seq<string>, v: Value)
    requires |path| >= 1 && Walk(Dict(Nest(m)), path) == Some(v)
    ensures path[0] in Heads(m)
    ensures path[0] in m ==> Walk(m[path[0]], path[1..]) == Some(v)
    ensures path[0] !in m ==> Walk(Dict(Nest(Under(m, path[0]))), path[1..]) == Some(v)
  {
  }

  /** A first key found below the head of a path, which is no key, is a first key of the whole path. */
  lemma LeafBelowHead(m: map<string, Value>, path: seq<string>, i: nat, v: Value)
    requires 1 <= i < |path| && path[0] !in m
    requires Join(path[1..][..i], ".") in Under(m, path[0])
    requires Walk(Under(m, path[0])[Join(path[1..][..i], ".")], path[1..][i..]) == Some(v)
    requires forall j :: 0 < j < i ==> Join(path[1..][..j], ".") !in Under(m, path[0])
    ensures exists k :: (1 <= k <= |path| && Join(path[..k], ".") in m &&
                         Walk(m[Join(path[..k], ".")], path[k..]) == Some(v) &&
                         forall j :: 0 < j < k ==> Join(path[..j], ".") !in m)
  {
    JoinAfterFirst(path, i);
    assert path[i + 1..] == path[1..][i..];
    forall j | 0 < j < i + 1
      ensures Join(path[..j], ".") !in m
    {
      if j == 1 {
        assert path[..1] == [path[0]];
      } else {
        JoinAfterFirst(path, j - 1);
      }
    }
    assert Join(path[..i + 1], ".") in m && Walk(m[Join(path[..i + 1], ".")], path[i + 1..]) == Some(v);
  }

  /**
    koanf's `Get` of a path shows the flat keys below it: descending along
    the remaining segments of a key no shorter prefix shadows reaches its
    value.
   */
  lemma GetOfReachesKey(data: map<string, Value>, key: string, path: seq<string>)
    requires key !in data && |path| >= 1 && Segments(path)
    requires key + "." + Join(path, ".") in data
    requires forall i :: 0 < i < |path| ==> key + "." + Join(path[..i], ".") !in data
    ensures Walk(GetOf(data, key), path) == Some(data[key + "." + Join(path, ".")])
  {
    NestReachesKey(Under(data, key), path);
  }

  /** Every leaf koanf's `Get` of a path shows lies in the value of a flat key below that path. */
  lemma GetOfLeafIsKey(data: map<string, Value>, key: string, path: seq<string>, v: Value)
    requires key !in data && |path| >= 1
    requires Walk(GetOf(data, key), path) == Some(v) && !v.Dict?
    ensures exists i :: (1 <= i <= |path| && key + "." + Join(path[..i], ".") in data &&
                         Walk(data[key + "." + Join(path[..i], ".")], path[i..]) == Some(v) &&
                         forall j :: 0 < j < i ==> key + "." + Join(path[..j], ".") !in data)
  {
    var u := Under(data, key);
    NestLeafIsKey(u, path, v);
    var i :| 1 <= i <= |path| && Join(path[..i], ".") in u &&
      Walk(u[Join(path[..i], ".")], path[i..]) == Some(v) &&
      forall j :: 0 < j < i ==> Join(path[..j], ".") !in u;
    assert key + "." + Join(path[..i], ".") in data;
  }

  // ---------------------------------------------------------------------
  // Validation

  /**
    `isNonDecreasingNonNegative` as a property: every bound is at least 0
    and no bound is smaller than the one before it.
   */
  predicate NonDecreasingNonNegative(v: seq<real>) {
    && (forall i :: 0 <= i < |v| ==> v[i] >= 0.0)
    && (forall i :: 0 < i < |v| ==> v[i - 1] <= v[i])
  }

  /** `isNonDecreasingNonNegative`: one pass that remembers the previous bound. */
  method IsNonDecreasingNonNegative(vals: seq<real>) returns (ok: bool)
    ensures ok == NonDecreasingNonNegative(vals)
  {
    var prev := -1.0;
    for i := 0 to |vals|
      invariant forall j :: 0 <= j < i ==> vals[j] >= 0.0
      invariant forall j :: 0 < j < i ==> vals[j - 1] <= vals[j]
      invariant i > 0 ==> prev == vals[i - 1]
    {
      var v := vals[i];
      if v < 0.0 {
        return false;
      }
      if i > 0 && v < prev {
        return false;
      }
      prev := v;
    }
    return true;
  }

  /** Checking neighbours is enough: an accepted bucket list is sorted throughout. */
  lemma {:induction false} NonDecreasingIsSorted(v: seq<real>)
    requires NonDecreasingNonNegative(v)
    ensures forall i, j :: 0 <= i <= j < |v| ==> 0.0 <= v[i] <= v[j]
    decreases |v|
  {
    if |v| > 1 {
      var w := v[..|v| - 1];
      assert NonDecreasingNonNegative(w);
      NonDecreasingIsSorted(w);
      forall i, j | 0 <= i <= j < |v|
        ensures 0.0 <= v[i] <= v[j]
      {
        if j == |v| - 1 && i < j {
          assert w[i] <= w[j - 1];
        } else if j < |v| - 1 {
          assert w[i] <= w[j];
        }
      }
    }
  }

  datatype ConfigError =
    | BadTelemetryPath
    | MissingTlsFiles
    | BadBuckets(name: string)
    | NegativeDuration

  /** The error text `Validate` returns. */
  function ErrorMessage(e: ConfigError): string {
    match e
    case BadTelemetryPath => "web.telemetry_path must start with '/'"
    case MissingTlsFiles => "tls enabled but cert_file or key_file missing"
    case BadBuckets(name) => "histogram_buckets." + name + " must be non-negative and non-decreasing"
    case NegativeDuration => "duration values must be >= 0"
  }

  /** The names under which `Validate` reports the four bucket lists. */
  const BucketNames: seq<string> := ["dns.rtt", "http.rtt", "ping.rtt", "traceroute.rtt"]

  function Buckets(c: Config, name: string): seq<real> {
    if name == "dns.rtt" then c.histogramBuckets.dns
    else if name == "http.rtt" then c.histogramBuckets.http
    else if name == "ping.rtt" then c.histogramBuckets.ping
    else c.histogramBuckets.traceroute
  }

  /** Naming the four lists covers all of them. */
  lemma BucketsByName(c: Config)
    ensures BucketsOk(c) <==> forall n :: n in BucketNames ==> NonDecreasingNonNegative(Buckets(c, n))
  {
    if BucketsOk(c) {
      forall n | n in BucketNames
        ensures NonDecreasingNonNegative(Buckets(c, n))
      {
        assert n == "dns.rtt" || n == "http.rtt" || n == "ping.rtt" || n == "traceroute.rtt";
      }
    } else {
      assert "dns.rtt" in BucketNames && "http.rtt" in BucketNames;
      assert "ping.rtt" in BucketNames && "traceroute.rtt" in BucketNames;
    }
  }

  /** The first of `names` whose bucket list is rejected, if any. */
  function FirstBadBuckets(c: Config, names: seq<string>): (r: Option<string>)
    ensures r.Some? ==> r.value in names && !NonDecreasingNonNegative(Buckets(c, r.value))
    ensures r.None? <==> forall n :: n in names ==> NonDecreasingNonNegative(Buckets(c, n))
  {
    if names == [] then None
    else if !NonDecreasingNonNegative(Buckets(c, names[0])) then Some(names[0])
    else FirstBadBuckets(c, names[1..])
  }

  predicate TelemetryPathOk(c: Config) {
    HasPrefix(c.telemetryPath, "/")
  }

  predicate TlsFilesOk(c: Config) {
    c.tlsEnabled ==> c.certFile != "" && c.keyFile != ""
  }

  predicate BucketsOk(c: Config) {
    && NonDecreasingNonNegative(c.histogramBuckets.dns)
    && NonDecreasingNonNegative(c.histogramBuckets.http)
    && NonDecreasingNonNegative(c.histogramBuckets.ping)
    && NonDecreasingNonNegative(c.histogramBuckets.traceroute)
  }

  predicate DurationsOk(c: Config) {
    c.cacheTtl >= 0 && c.cacheCleanup >= 0 && c.timeout >= 0 && c.maxResultAge >= 0 && c.healthMaxDataAge >= 0
  }

  /**
    `Validate`: the checks run in a fixed order and the first one that fails
    decides the error. The telemetry path must start with '/', TLS needs
    both file names, every bucket list must pass, no duration may be
    negative.
   */
  function Validate(c: Config): (r: Option<ConfigError>)
    ensures r.None? <==> TelemetryPathOk(c) && TlsFilesOk(c) && BucketsOk(c) && DurationsOk(c)
    ensures !TelemetryPathOk(c) ==> r == Some(BadTelemetryPath)
    ensures TelemetryPathOk(c) && !TlsFilesOk(c) ==> r == Some(MissingTlsFiles)
    ensures TelemetryPathOk(c) && TlsFilesOk(c) && !BucketsOk(c) ==>
      r.Some? && r.value.BadBuckets? && r.value.name in BucketNames && !NonDecreasingNonNegative(Buckets(c, r.value.name))
    ensures TelemetryPathOk(c) && TlsFilesOk(c) && BucketsOk(c) && !DurationsOk(c) ==> r == Some(NegativeDuration)
  {
    if c.telemetryPath == "" || !HasPrefix(c.telemetryPath, "/") then Some(BadTelemetryPath)
    else if c.tlsEnabled && (c.certFile == "" || c.keyFile == "") then Some(MissingTlsFiles)
    else
      var bad := FirstBadBuckets(c, BucketNames);
      BucketsByName(c);
      if bad.Some? then Some(BadBuckets(bad.value))
      else if c.cacheTtl < 0 || c.cacheCleanup < 0 || c.timeout < 0 || c.maxResultAge < 0 || c.healthMaxDataAge < 0 then
        Some(NegativeDuration)
      else None
  }

  // ---------------------------------------------------------------------
  // Layers

  /** A command-line flag: its value (the default unless given) and whether it was given. */
  datatype Flag = Flag(value: Value, changed: bool)

  /** `Defaults`: the first layer. */
  function Defaults(): map<string, Value> {
    map[
      "web.listen_address" := Text(":9400"),
      "web.telemetry_path" := Text("/metrics"),
      "cache.ttl" := Text("3600s"),
      "cache.cleanup" := Text("300s"),
      "timeout" := Text("60s"),
      "worker.count" := Int(8),
      "streaming.enabled" := Bool(true),
      "streaming.buffer_size" := Int(100),
      "profiling.enabled" := Bool(false),
      "metrics.go_enabled" := Bool(true),
      "metrics.process_enabled" := Bool(true),
      "log.level" := Text("info"),
      "tls.enabled" := Bool(false),
      "tls.cert_file" := Text(""),
      "tls.key_file" := Text(""),
      "health.max_data_age" := Text("0s"),
      "filter_invalid_results" := Bool(true),
      "max_result_age" := Text("0s"),
      "dns.nsid_enabled" := Bool(true)
    ]
  }

  /** The configuration the defaults decode to. */
  const DefaultConfig: Config := Config(
    ":9400", "/metrics", 3600 * Second, 300 * Second, 60 * Second, 8, true, 100,
    false, true, true, "info", false, "", "", 0, HistogramBuckets([], [], [], []), [],
    true, 0)

  /** `RegisterFlags`: one flag per default, not given, plus the config file path. */
  function RegisteredFlags(): map<string, Flag> {
    (map key | key in Defaults() :: Flag(Defaults()[key], false))["config.file" := Flag(Text(""), false)]
  }

  /**
    The layer the posflag provider contributes: a flag that was given always
    counts; a flag left at its default counts only for a key no earlier
    layer has set.
   */
  function FlagLayer(flags: map<string, Flag>, present: set<string>): map<string, Value> {
    map key | key in flags && (flags[key].changed || key !in present) :: flags[key].value
  }

  /** The four layers merged in `Load`'s order, each overriding the ones before. */
  function Merged(defaults: map<string, Value>, file: map<string, Value>, env: map<string, Value>, flags: map<string, Flag>): map<string, Value> {
    var base := defaults + file + env;
    base + FlagLayer(flags, base.Keys)
  }

  function Lookup(m: map<string, Value>, key: string): Option<Value> {
    if key in m then Some(m[key]) else None
  }

  /**
    The precedence rule, written out key by key: a given flag wins, then
    the environment, then the file, then the defaults, and a flag left at
    its default fills a key nobody else set.
   */
  function Precedence(defaults: map<string, Value>, file: map<string, Value>, env: map<string, Value>, flags: map<string, Flag>, key: string): Option<Value> {
    if key in flags && flags[key].changed then Some(flags[key].value)
    else if key in env then Some(env[key])
    else if key in file then Some(file[key])
    else if key in defaults then Some(defaults[key])
    else if key in flags then Some(flags[key].value)
    else None
  }

  /** Merging the layers follows the precedence rule for every key. */
  lemma LayerPrecedence(defaults: map<string, Value>, file: map<string, Value>, env: map<string, Value>, flags: map<string, Flag>, key: string)
    ensures Lookup(Merged(defaults, file, env, flags), key) == Precedence(defaults, file, env, flags, key)
  {
  }

  /**
    The file, environment and flags of the precedence test: the file sets
    three keys, the environment overrides one of them and two given flags
    override the environment and the file; a flag left at its default does
    not touch a key that is set already.
   */
  lemma PrecedenceExample(defaults: map<string, Value>)
    requires "web.listen_address" in defaults && defaults["web.listen_address"] == Text(":9400")
    requires "web.telemetry_path" in defaults
    ensures var file := map["web.telemetry_path" := Text("/m"), "metrics.go_enabled" := Bool(false), "log.level" := Text("warn")];
            var env := map["metrics.go_enabled" := Text("true")];
            var flags := map["web.telemetry_path" := Flag(Text("/metrics"), false), "web.listen_address" := Flag(Text(":9400"), false),
                             "metrics.go_enabled" := Flag(Bool(false), true), "log.level" := Flag(Text("debug"), true)];
            var merged := Merged(defaults, file, env, flags);
            && Lookup(merged, "web.telemetry_path") == Some(Text("/m"))
            && Lookup(merged, "metrics.go_enabled") == Some(Bool(false))
            && Lookup(merged, "log.level") == Some(Text("debug"))
            && Lookup(merged, "web.listen_address") == Some(Text(":9400"))
  {
    var file := map["web.telemetry_path" := Text("/m"), "metrics.go_enabled" := Bool(false), "log.level" := Text("warn")];
    var env := map["metrics.go_enabled" := Text("true")];
    var flags := map["web.telemetry_path" := Flag(Text("/metrics"), false), "web.listen_address" := Flag(Text(":9400"), false),
                     "metrics.go_enabled" := Flag(Bool(false), true), "log.level" := Flag(Text("debug"), true)];
    LayerPrecedence(defaults, file, env, flags, "web.telemetry_path");
    LayerPrecedence(defaults, file, env, flags, "metrics.go_enabled");
    LayerPrecedence(defaults, file, env, flags, "log.level");
    LayerPrecedence(defaults, file, env, flags, "web.listen_address");
  }

  /**
    `layer` is what the environment provider yields: a key for every
    variable that starts with ATLAS_ and is not rewritten to the empty key,
    and under each key the value of one variable rewritten to it.
   */
  ghost predicate IsEnvLayer(environ: map<string, string>, layer: map<string, Value>) {
    IsLayerOf(environ, EnvKeys(environ), layer)
  }

  /** The key each variable of the environment is rewritten to, for those with the prefix and a non-empty key. */
  function EnvKeys(environ: map<string, string>): (keys: map<string, string>)
    ensures forall name :: name in keys <==>
      name in environ && HasPrefix(name, EnvPrefix) && EnvTransform(name, environ[name]).0 != ""
    ensures forall name :: name in keys ==> keys[name] == EnvTransform(name, environ[name]).0
  {
    map name | name in environ && HasPrefix(name, EnvPrefix) && EnvTransform(name, environ[name]).0 != "" ::
      EnvTransform(name, environ[name]).0
  }

  /** `layer` has a key for every name `keys` rewrites, and under it the value of one variable rewritten to it. */
  ghost predicate IsLayerOf(environ: map<string, string>, keys: map<string, string>, layer: map<string, Value>) {
    && keys.Keys <= environ.Keys
    && (forall name :: name in keys ==> keys[name] in layer)
    && (forall key {:trigger layer[key]} :: key in layer ==>
          exists name :: name in keys && keys[name] == key && layer[key] == Text(environ[name]))
  }

  /** The environment provider with its prefix and `envTransform`, over the process environment. */
  method EnvLayer(environ: map<string, string>) returns (layer: map<string, Value>)
    ensures IsEnvLayer(environ, layer)
  {
    ghost var keys := EnvKeys(environ);
    layer := map[];
    var left := environ.Keys;
    while left != {}
      invariant left <= environ.Keys
      invariant forall name :: name in keys && name !in left ==> keys[name] in layer
      invariant forall key {:trigger layer[key]} :: key in layer ==>
        exists name :: name in keys && keys[name] == key && layer[key] == Text(environ[name])
      decreases left
    {
      ghost var some := NonEmptyHasMember(left);
      var name :| name in left;
      if HasPrefix(name, EnvPrefix) {
        var (key, v) := EnvTransform(name, environ[name]);
        if key != "" {
          layer := layer[key := Text(v)];
          assert keys[name] == key;
        }
      }
      left := left - {name};
    }
  }

  /** The config file path: the config.file flag, else ATLAS_CONFIG_FILE, else none (""). */
  function ConfigFilePath(flags: map<string, Flag>, environ: map<string, string>): (path: string)
    ensures "config.file" in flags && flags["config.file"].value.Text? && flags["config.file"].value.s != "" ==>
      path == flags["config.file"].value.s
    ensures !("config.file" in flags && flags["config.file"].value.Text? && flags["config.file"].value.s != "") ==>
      path == (if EnvPrefix + "CONFIG_FILE" in environ then environ[EnvPrefix + "CONFIG_FILE"] else "")
  {
    var fromFlag := if "config.file" in flags && flags["config.file"].value.Text? then flags["config.file"].value.s else "";
    if fromFlag != "" then fromFlag
    else if EnvPrefix + "CONFIG_FILE" in environ then environ[EnvPrefix + "CONFIG_FILE"]
    else ""
  }

  datatype LoadError = FileError(path: string) | DecodeError | Invalid(err: ConfigError)

  /** The koanf instance `Load` fills, with the operations the loader uses on it. */
  class Koanf {
    var data: map<string, Value>

    constructor ()
      ensures data == map[]
    {
      data := map[];
    }

    /** `Get`: the value under a key, or the nested map below it; nil when neither. */
    function Get(key: string): (v: Value)
      reads this
      ensures v == GetOf(data, key)
    {
      GetOf(data, key)
    }

    /** `Set`: the value replaces the key and everything nested below it. */
    method Set(key: string, v: Value)
      modifies this
      ensures data == SetOf(old(data), key, v)
    {
      data := SetOf(data, key, v);
    }

    /** `Load` of a provider's layer: its keys override the ones already set. */
    method Load(layer: map<string, Value>)
      modifies this
      ensures data == old(data) + layer
    {
      data := data + layer;
    }

    /** `Load` of the posflag provider, which consults the keys set so far. */
    method LoadFlags(flags: map<string, Flag>)
      modifies this
      ensures data == old(data) + FlagLayer(flags, old(data).Keys)
    {
      data := data + FlagLayer(flags, data.Keys);
    }

    /**
      `normalizeArrays`: a measurements value that is a map with at least one
      index key is replaced by the array it stands for; anything else stays.
     */
    method NormalizeArrays()
      modifies this
      ensures NormalizedFrom(old(data), data)
    {
      var v := Get(MeasurementsKey);
      if v != Nil && v.Dict? {
        var found, items := ToArray(v.entries);
        if found {
          Set(MeasurementsKey, List(items));
        }
      }
    }
  }

  /**
    The last two steps of `Load`: decode the merged map (None when a value
    has the wrong form) and validate the result.
   */
  function DecodeAndValidate(merged: map<string, Value>, decode: map<string, Value> -> Option<Config>): (r: Outcome<Config, LoadError>)
    ensures r.Success? <==> decode(merged).Some? && Validate(decode(merged).value).None?
    ensures r.Success? ==> r.value == decode(merged).value
    ensures decode(merged).None? ==> r == Failure(DecodeError)
    ensures decode(merged).Some? && Validate(decode(merged).value).Some? ==>
      r == Failure(Invalid(Validate(decode(merged).value).value))
  {
    match decode(merged)
    case None => Failure(DecodeError)
    case Some(cfg) =>
      match Validate(cfg)
      case Some(err) => Failure(Invalid(err))
      case None => Success(cfg)
  }

  /**
    `Load`: defaults, then the file named by the flag or the environment,
    then the environment, then the flags; then `normalizeArrays`, decoding
    and `Validate`. `readFile` reads and parses a YAML file (None when that
    fails) and `decode` is the mapstructure decoding.
   */
  method Load(flags: map<string, Flag>, environ: map<string, string>,
              readFile: string -> Option<map<string, Value>>,
              decode: map<string, Value> -> Option<Config>)
    returns (r: Outcome<Config, LoadError>, ghost fileLayer: map<string, Value>, ghost env: map<string, Value>, ghost merged: map<string, Value>)
    ensures var path := ConfigFilePath(flags, environ);
            if path != "" && readFile(path).None? then r == Failure(FileError(path))
            else
              && fileLayer == (if path == "" then map[] else readFile(path).value)
              && IsEnvLayer(environ, env)
              && NormalizedFrom(Merged(Defaults(), fileLayer, env, flags), merged)
              && r == DecodeAndValidate(merged, decode)
  {
    var k := new Koanf();
    k.Load(Defaults());
    assert k.data == Defaults();
    var path := ConfigFilePath(flags, environ);
    fileLayer, env, merged := map[], map[], map[];
    if path != "" {
      var parsed := readFile(path);
      if parsed.None? {
        return Failure(FileError(path)), fileLayer, env, merged;
      }
      fileLayer := parsed.value;
      k.Load(parsed.value);
    }
    assert k.data == Defaults() + fileLayer;
    var envLayer := EnvLayer(environ);
    env := envLayer;
    k.Load(envLayer);
    k.LoadFlags(flags);
    k.NormalizeArrays();
    merged := k.data;
    r := DecodeAndValidate(k.data, decode);
  }

  /** `after` is `before` once `normalizeArrays` has run on it. */
  ghost predicate NormalizedFrom(before: map<string, Value>, after: map<string, Value>) {
    var v := GetOf(before, MeasurementsKey);
    if v.Dict? && HasIndexKey(v.entries) then
      && MeasurementsKey in after && after[MeasurementsKey].List?
      && IsArrayOf(v.entries, after[MeasurementsKey].items)
      && after == SetOf(before, MeasurementsKey, after[MeasurementsKey])
    else after == before
  }

  // ---------------------------------------------------------------------
  // Measurements given by environment variables

  /**
    A name folding to three segments joined by "__", the first two without
    an underscore and the last without a double one, becomes the three
    segments joined by "." (ATLAS_MEASUREMENTS__0__ID becomes
    measurements.0.id).
   */
  lemma EnvTransformThreeSegments(k: string, v: string, first: string, second: string, third: string)
    requires EnvSegmentsText(k) == first + "__" + second + "__" + third
    requires '_' !in first && '_' !in second && !Contains(third, "__")
    ensures EnvTransform(k, v) == (first + "." + second + "." + third, v)
  {
    SplitThree(first, second, third);
    JoinThree(first, second, third);
  }

  /** Three pieces, the first two without an underscore and the last without "__", split back apart. */
  lemma SplitThree(first: string, second: string, third: string)
    requires '_' !in first && '_' !in second && !Contains(third, "__")
    ensures Split(first + "__" + second + "__" + third, "__") == [first, second, third]
  {
    var tail := second + "__" + third;
    assert first + "__" + second + "__" + third == first + "__" + tail;
    SplitAtFirst(first, "__", tail);
    SplitAtFirst(second, "__", third);
    SplitWithoutSeparator(third, "__");
  }

  /** Joining three pieces with "." puts a dot between each two. */
  lemma JoinThree(first: string, second: string, third: string)
    ensures Join([first, second, third], ".") == first + "." + second + "." + third
  {
    assert [first, second, third][1..] == [second, third];
    assert [second, third][1..] == [third];
    assert Join([second, third], ".") == second + "." + third;
    assert Join([first, second, third], ".") == first + "." + (second + "." + third);
  }

  lemma MeasurementsLowered(d: string)
    requires d == "0" || d == "1"
    ensures ToLower("MEASUREMENTS__" + d + "__ID") == "measurements" + "__" + d + "__" + "id"
  {
    assert "MEASUREMENTS__" + d + "__ID" == "MEASUREMENTS__" + (d + "__ID");
    ToLowerConcat("MEASUREMENTS__", d + "__ID");
    ToLowerConcat(d, "__ID");
    assert ToLower("MEASUREMENTS__") == "measurements" + "__";
    assert ToLower("__ID") == "__" + "id";
    assert ToLower(d) == d;
  }

  /** The case-folded, prefix-stripped form of ATLAS_MEASUREMENTS__<d>__ID for one digit `d`. */
  lemma MeasurementsEnvText(d: string)
    requires d == "0" || d == "1"
    ensures EnvSegmentsText(EnvPrefix + ("MEASUREMENTS__" + d + "__ID")) == "measurements" + "__" + d + "__" + "id"
  {
    assert ToUpper(EnvPrefix) == EnvPrefix;
    EnvSegmentsOfPrefixed(EnvPrefix, "MEASUREMENTS__" + d + "__ID");
    MeasurementsLowered(d);
  }

  /** What `envTransform` makes of ATLAS_MEASUREMENTS__<d>__ID for one digit `d`. */
  lemma MeasurementsEnvKey(d: string, v: string)
    requires d == "0" || d == "1"
    ensures EnvTransform(EnvPrefix + ("MEASUREMENTS__" + d + "__ID"), v) == ("measurements" + "." + d + "." + "id", v)
  {
    MeasurementsEnvText(d);
    NotContainsLead("id", "__");
    assert '_' !in "measurements" && '_' !in d;
    EnvTransformThreeSegments(EnvPrefix + ("MEASUREMENTS__" + d + "__ID"), v, "measurements", d, "id");
  }

  /**
    The environment provider's layer for the environment of the loader's
    env measurements test (ATLAS_MEASUREMENTS__0__ID=111 and
    ATLAS_MEASUREMENTS__1__ID=222, the digits passed as `d0` and `d1`): two
    flat keys.
   */
  lemma MeasurementsEnvLayer(d0: string, d1: string, layer: map<string, Value>)
    requires d0 == "0" && d1 == "1"
    requires IsEnvLayer(map[EnvPrefix + ("MEASUREMENTS__" + d0 + "__ID") := "111",
                            EnvPrefix + ("MEASUREMENTS__" + d1 + "__ID") := "222"], layer)
    ensures layer == map["measurements" + "." + d0 + "." + "id" := Text("111"),
                         "measurements" + "." + d1 + "." + "id" := Text("222")]
  {
    var n0, n1 := EnvPrefix + ("MEASUREMENTS__" + d0 + "__ID"), EnvPrefix + ("MEASUREMENTS__" + d1 + "__ID");
    var k0, k1 := "measurements" + "." + d0 + "." + "id", "measurements" + "." + d1 + "." + "id";
    MeasurementsEnvKey(d0, "111");
    MeasurementsEnvKey(d1, "222");
    MeasurementsEnvNames(d0, d1);
    var environ := map[n0 := "111", n1 := "222"];
    assert environ[n0] == "111" && environ[n1] == "222";
    EnvKeysOfTwo(environ, n0, n1, k0, k1);
    LayerOfTwo(environ, EnvKeys(environ), n0, n1, k0, k1, layer);
  }

  /** The env test's two variable names carry the prefix and differ, and so do their keys. */
  lemma MeasurementsEnvNames(d0: string, d1: string)
    requires d0 == "0" && d1 == "1"
    ensures HasPrefix(EnvPrefix + ("MEASUREMENTS__" + d0 + "__ID"), EnvPrefix)
    ensures HasPrefix(EnvPrefix + ("MEASUREMENTS__" + d1 + "__ID"), EnvPrefix)
    ensures EnvPrefix + ("MEASUREMENTS__" + d0 + "__ID") != EnvPrefix + ("MEASUREMENTS__" + d1 + "__ID")
    ensures "measurements" + "." + d0 + "." + "id" != "measurements" + "." + d1 + "." + "id"
    ensures "measurements" + "." + d0 + "." + "id" != "" && "measurements" + "." + d1 + "." + "id" != ""
  {
    var n0, n1 := EnvPrefix + ("MEASUREMENTS__" + d0 + "__ID"), EnvPrefix + ("MEASUREMENTS__" + d1 + "__ID");
    var k0, k1 := "measurements" + "." + d0 + "." + "id", "measurements" + "." + d1 + "." + "id";
    assert n0[|EnvPrefix| + 14] == '0' && n1[|EnvPrefix| + 14] == '1';
    assert k0[13] == '0' && k1[13] == '1';
    assert n0[..|EnvPrefix|] == EnvPrefix && n1[..|EnvPrefix|] == EnvPrefix;
  }

  /** A layer over two names rewritten to two distinct keys. */
  lemma LayerOfTwo(environ: map<string, string>, keys: map<string, string>, n0: string, n1: string, k0: string, k1: string,
                   layer: map<string, Value>)
    requires keys == map[n0 := k0, n1 := k1] && n0 != n1 && k0 != k1
    requires IsLayerOf(environ, keys, layer)
    ensures layer == map[k0 := Text(environ[n0]), k1 := Text(environ[n1])]
  {
    assert n0 in keys && n1 in keys;
    forall key | key in layer
      ensures key == k0 || key == k1
    {
      assert layer[key] == layer[key];
    }
    assert layer[k0] == layer[k0] && layer[k1] == layer[k1];
  }

  /** The name-to-key map of an environment of two variables with distinct, non-empty keys. */
  lemma EnvKeysOfTwo(environ: map<string, string>, n0: string, n1: string, k0: string, k1: string)
    requires environ.Keys == {n0, n1} && k0 != "" && k1 != ""
    requires HasPrefix(n0, EnvPrefix) && HasPrefix(n1, EnvPrefix)
    requires EnvTransform(n0, environ[n0]).0 == k0 && EnvTransform(n1, environ[n1]).0 == k1
    ensures EnvKeys(environ) == map[n0 := k0, n1 := k1]
  {
  }

  /** The keys of a union below a path: those of the right operand win. */
  lemma UnderUnion(a: map<string, Value>, b: map<string, Value>, p: string)
    ensures Under(a + b, p) == Under(a, p) + Under(b, p)
  {
  }

  /** Two keys p.x and p.y, and only they, lie below p in a map of two. */
  lemma UnderPair(p: string, x: string, y: string, vx: Value, vy: Value)
    requires x != y
    ensures Under(map[p + "." + x := vx, p + "." + y := vy], p) == map[x := vx, y := vy]
  {
    var m := map[p + "." + x := vx, p + "." + y := vy];
    forall r | r in Under(m, p)
      ensures r == x || r == y
    {
      if p + "." + r == p + "." + x {
        assert (p + "." + r)[|p| + 1..] == r && (p + "." + x)[|p| + 1..] == x;
      } else {
        assert (p + "." + r)[|p| + 1..] == r && (p + "." + y)[|p| + 1..] == y;
      }
    }
    assert p + "." + x != p + "." + y by {
      assert (p + "." + x)[|p| + 1..] == x && (p + "." + y)[|p| + 1..] == y;
    }
  }

  /** No default key starts with "m?a", so none lies below "measurements". */
  lemma DefaultKeysAvoidMeasurements()
    ensures forall k :: k in Defaults() ==> |k| < 3 || k[0] != 'm' || k[2] != 'a'
  {
  }

  /** Nothing of the defaults or the registered flags lies below "measurements". */
  lemma NothingBelowMeasurements(present: set<string>)
    ensures MeasurementsKey !in Defaults() && MeasurementsKey !in RegisteredFlags()
    ensures Under(Defaults(), MeasurementsKey) == map[]
    ensures Under(FlagLayer(RegisteredFlags(), present), MeasurementsKey) == map[]
  {
    DefaultKeysAvoidMeasurements();
    RegisteredFlagKeys();
    NothingBelowFlagsOf(Defaults(), RegisteredFlags(), present);
  }

  /** The registered flags are the defaults' keys and config.file. */
  lemma RegisteredFlagKeys()
    ensures RegisteredFlags().Keys == Defaults().Keys + {"config.file"}
  {
  }

  /** Flags over keys that avoid "measurements", and the defaults they come from, have nothing below it. */
  lemma NothingBelowFlagsOf(defaults: map<string, Value>, flags: map<string, Flag>, present: set<string>)
    requires forall k :: k in defaults ==> |k| < 3 || k[0] != 'm' || k[2] != 'a'
    requires flags.Keys == defaults.Keys + {"config.file"}
    ensures MeasurementsKey !in defaults && MeasurementsKey !in flags
    ensures Under(defaults, MeasurementsKey) == map[]
    ensures Under(FlagLayer(flags, present), MeasurementsKey) == map[]
  {
    NothingBelowAvoided(defaults);
    NothingBelowAvoided(FlagLayer(flags, present));
  }

  /** A map none of whose keys starts with "m?a" has nothing below "measurements" and no such key. */
  lemma NothingBelowAvoided(m: map<string, Value>)
    requires forall k :: k in m ==> |k| < 3 || k[0] != 'm' || k[2] != 'a'
    ensures MeasurementsKey !in m && Under(m, MeasurementsKey) == map[]
  {
  }

  /**
    Two index keys, each with one leaf below it, nest into one map per
    index: {"0.id": a, "1.id": b} becomes {"0": {"id": a}, "1": {"id": b}}.
   */
  lemma NestOfIndexedLeaves(x: string, y: string, leaf: string, vx: Value, vy: Value)
    requires '.' !in x && '.' !in y && '.' !in leaf && x != y
    ensures Nest(map[x + "." + leaf := vx, y + "." + leaf := vy]) ==
      map[x := Dict(map[leaf := vx]), y := Dict(map[leaf := vy])]
  {
    var u := map[x + "." + leaf := vx, y + "." + leaf := vy];
    HeadsOfIndexedLeaves(x, y, leaf, vx, vy);
    UnderIndexedLeaf(x, y, leaf, vx, vy);
    UnderIndexedLeaf(y, x, leaf, vy, vx);
    assert u == map[y + "." + leaf := vy, x + "." + leaf := vx];
    NestOfLeaf(leaf, vx);
    NestOfLeaf(leaf, vy);
    NestOfTwoSubtrees(u, x, y);
  }

  /** The heads of two dotted keys with distinct undotted heads are those heads, and neither is a key. */
  lemma HeadsOfIndexedLeaves(x: string, y: string, leaf: string, vx: Value, vy: Value)
    requires '.' !in x && '.' !in y && x != y
    ensures Heads(map[x + "." + leaf := vx, y + "." + leaf := vy]) == {x, y}
    ensures x !in map[x + "." + leaf := vx, y + "." + leaf := vy]
    ensures y !in map[x + "." + leaf := vx, y + "." + leaf := vy]
  {
    HeadOfDotted(x, leaf);
    HeadOfDotted(y, leaf);
    assert '.' in y + "." + leaf by {
      assert (y + "." + leaf)[|y|] == '.';
    }
    assert '.' in x + "." + leaf by {
      assert (x + "." + leaf)[|x|] == '.';
    }
  }

  /** Below x lies only the leaf of x.leaf, when the other key y.leaf has another head. */
  lemma UnderIndexedLeaf(x: string, y: string, leaf: string, vx: Value, vy: Value)
    requires '.' !in x && '.' !in y && x != y
    ensures Under(map[x + "." + leaf := vx, y + "." + leaf := vy], x) == map[leaf := vx]
  {
    var u := map[x + "." + leaf := vx, y + "." + leaf := vy];
    DottedDeterminesHead(x, leaf, y, leaf);
    forall r | r in Under(u, x)
      ensures r == leaf
    {
      DottedDeterminesHead(x, r, y, leaf);
      assert (x + "." + r)[|x| + 1..] == r && (x + "." + leaf)[|x| + 1..] == leaf;
    }
  }

  /** A single undotted key nests to itself. */
  lemma NestOfLeaf(leaf: string, v: Value)
    requires '.' !in leaf
    ensures Nest(map[leaf := v]) == map[leaf := v]
  {
    HeadOfUndotted(leaf);
    assert Heads(map[leaf := v]) == {leaf};
  }

  /** A map with exactly two heads, neither a key itself, nests into the two subtrees. */
  lemma NestOfTwoSubtrees(u: map<string, Value>, x: string, y: string)
    requires Heads(u) == {x, y} && x !in u && y !in u
    ensures Nest(u) == map[x := Dict(Nest(Under(u, x))), y := Dict(Nest(Under(u, y)))]
  {
    NestOfSubtree(u, x);
    NestOfSubtree(u, y);
  }

  /** A head that is not a key itself nests into the subtree below it. */
  lemma NestOfSubtree(u: map<string, Value>, s: string)
    requires s in Heads(u) && s !in u
    ensures Nest(u)[s] == Dict(Nest(Under(u, s)))
  {
  }

  lemma {:induction false} HeadOfUndotted(k: string)
    requires '.' !in k
    ensures Head(k) == k
    decreases |k|
  {
    if k != [] {
      assert k[0] in k;
      assert forall c :: c in k[1..] ==> c in k;
      HeadOfUndotted(k[1..]);
    }
  }

  lemma {:induction false} HeadOfDotted(x: string, rest: string)
    requires '.' !in x
    ensures Head(x + "." + rest) == x
    decreases |x|
  {
    var k := x + "." + rest;
    if x == [] {
      assert k[0] == '.';
    } else {
      assert x[0] in x;
      assert k[0] == x[0];
      assert k[1..] == x[1..] + "." + rest;
      assert forall c :: c in x[1..] ==> c in x;
      HeadOfDotted(x[1..], rest);
    }
  }

  /** A key x.r is not y.leaf when x and y differ and neither holds a dot. */
  lemma DottedDeterminesHead(x: string, r: string, y: string, leaf: string)
    requires '.' !in x && '.' !in y && x != y
    ensures x + "." + r != y + "." + leaf
  {
    HeadOfDotted(x, r);
    HeadOfDotted(y, leaf);
  }

  lemma IndexOfDigits()
    ensures IndexOf("0") == Some(0) && IndexOf("1") == Some(1)
  {
  }

  /**
    The loader's env measurements test: with no configuration file, the
    flags left at their defaults and the two variables set, `normalizeArrays`
    turns the measurements into a list of two maps, the ids 111 and 222 in
    index order.
   */
  lemma EnvMeasurementsNormalized(d0: string, d1: string, env: map<string, Value>, merged: map<string, Value>)
    requires d0 == "0" && d1 == "1"
    requires IsEnvLayer(map[EnvPrefix + ("MEASUREMENTS__" + d0 + "__ID") := "111",
                            EnvPrefix + ("MEASUREMENTS__" + d1 + "__ID") := "222"], env)
    requires NormalizedFrom(Merged(Defaults(), map[], env, RegisteredFlags()), merged)
    ensures MeasurementsKey in merged
    ensures merged[MeasurementsKey] == List([Dict(map["id" := Text("111")]), Dict(map["id" := Text("222")])])
  {
    var a, b := Dict(map["id" := Text("111")]), Dict(map["id" := Text("222")]);
    MeasurementsEnvLayer(d0, d1, env);
    EnvMeasurementsBefore(d0, d1, env);
    IndexesOfDigits(d0, d1, a, b);
    NormalizedPair(Merged(Defaults(), map[], env, RegisteredFlags()), merged, d0, d1, a, b);
  }

  /** Before normalisation, the env measurements test's "measurements" is a map of the two indexes to their ids. */
  lemma EnvMeasurementsBefore(d0: string, d1: string, env: map<string, Value>)
    requires d0 == "0" && d1 == "1"
    requires env == map["measurements" + "." + d0 + "." + "id" := Text("111"),
                        "measurements" + "." + d1 + "." + "id" := Text("222")]
    ensures GetOf(Merged(Defaults(), map[], env, RegisteredFlags()), MeasurementsKey) ==
      Dict(map[d0 := Dict(map["id" := Text("111")]), d1 := Dict(map["id" := Text("222")])])
  {
    IndexedEnvKeys(d0, d1, "id");
    NothingBelowMeasurements((Defaults() + map[] + env).Keys);
    GetOfMergedIndexes(Defaults(), RegisteredFlags(), env, d0, d1, "id", Text("111"), Text("222"));
  }

  /** The env test's keys are paths below "measurements", through an undotted index to an undotted leaf. */
  lemma IndexedEnvKeys(d0: string, d1: string, leaf: string)
    requires d0 == "0" && d1 == "1" && leaf == "id"
    ensures "measurements" + "." + d0 + "." + leaf == MeasurementsKey + "." + (d0 + "." + leaf)
    ensures "measurements" + "." + d1 + "." + leaf == MeasurementsKey + "." + (d1 + "." + leaf)
    ensures '.' !in d0 && '.' !in d1 && '.' !in leaf && d0 != d1
  {
  }

  /** Two indexed leaves below "measurements", over layers with nothing else there, read back as a map per index. */
  lemma GetOfMergedIndexes(defaults: map<string, Value>, flags: map<string, Flag>, env: map<string, Value>,
                           x: string, y: string, leaf: string, vx: Value, vy: Value)
    requires '.' !in x && '.' !in y && '.' !in leaf && x != y
    requires env == map[MeasurementsKey + "." + (x + "." + leaf) := vx, MeasurementsKey + "." + (y + "." + leaf) := vy]
    requires MeasurementsKey !in defaults && MeasurementsKey !in flags && Under(defaults, MeasurementsKey) == map[]
    requires Under(FlagLayer(flags, (defaults + map[] + env).Keys), MeasurementsKey) == map[]
    ensures GetOf(Merged(defaults, map[], env, flags), MeasurementsKey) ==
      Dict(map[x := Dict(map[leaf := vx]), y := Dict(map[leaf := vy])])
  {
    assert x + "." + leaf != y + "." + leaf by {
      DottedDeterminesHead(x, leaf, y, leaf);
    }
    MergedBelowMeasurements(defaults, flags, env, x + "." + leaf, y + "." + leaf, vx, vy);
    NestOfIndexedLeaves(x, y, leaf, vx, vy);
    var merged := Merged(defaults, map[], env, flags);
    assert Under(merged, MeasurementsKey) != map[] by {
      assert x + "." + leaf in Under(merged, MeasurementsKey);
    }
  }

  /** A normalised map whose "measurements" held the indexes 0 and 1 now holds the list of their values. */
  lemma NormalizedPair(before: map<string, Value>, after: map<string, Value>, d0: string, d1: string, a: Value, b: Value)
    requires d0 != d1 && GetOf(before, MeasurementsKey) == Dict(map[d0 := a, d1 := b])
    requires IndexesOf(map[d0 := a, d1 := b]) == map[d0 := 0, d1 := 1]
    requires NormalizedFrom(before, after)
    ensures MeasurementsKey in after && after[MeasurementsKey] == List([a, b])
  {
    var entries := map[d0 := a, d1 := b];
    assert HasIndexKey(entries) by {
      assert d0 in IndexesOf(entries);
    }
    ArrayOfTwoIndexes(entries, d0, d1, after[MeasurementsKey].items);
  }

  /** Merging defaults and flags with nothing below "measurements" leaves the env layer's two keys alone below it. */
  lemma MergedBelowMeasurements(defaults: map<string, Value>, flags: map<string, Flag>, env: map<string, Value>,
                                x: string, y: string, vx: Value, vy: Value)
    requires x != y && env == map[MeasurementsKey + "." + x := vx, MeasurementsKey + "." + y := vy]
    requires MeasurementsKey !in defaults && MeasurementsKey !in flags && Under(defaults, MeasurementsKey) == map[]
    requires Under(FlagLayer(flags, (defaults + map[] + env).Keys), MeasurementsKey) == map[]
    ensures MeasurementsKey !in Merged(defaults, map[], env, flags)
    ensures Under(Merged(defaults, map[], env, flags), MeasurementsKey) == map[x := vx, y := vy]
  {
    var base := defaults + map[] + env;
    BaseBelowMeasurements(defaults, env, x, y, vx, vy);
    UnderBesideEmpty(base, FlagLayer(flags, base.Keys), MeasurementsKey);
    assert MeasurementsKey !in FlagLayer(flags, base.Keys);
  }

  /** Below "measurements" in the defaults, an empty file and the env layer lie the env layer's two keys. */
  lemma BaseBelowMeasurements(defaults: map<string, Value>, env: map<string, Value>, x: string, y: string, vx: Value, vy: Value)
    requires x != y && env == map[MeasurementsKey + "." + x := vx, MeasurementsKey + "." + y := vy]
    requires MeasurementsKey !in defaults && Under(defaults, MeasurementsKey) == map[]
    ensures MeasurementsKey !in defaults + map[] + env
    ensures Under(defaults + map[] + env, MeasurementsKey) == map[x := vx, y := vy]
  {
    assert defaults + map[] == defaults;
    UnderOverEmpty(defaults, env, MeasurementsKey);
    UnderPair(MeasurementsKey, x, y, vx, vy);
    assert MeasurementsKey !in env by {
      assert |MeasurementsKey + "." + x| > |MeasurementsKey| && |MeasurementsKey + "." + y| > |MeasurementsKey|;
    }
  }

  /** Below a path in a union whose right operand has nothing there lies what the left operand has. */
  lemma UnderBesideEmpty(a: map<string, Value>, b: map<string, Value>, p: string)
    requires Under(b, p) == map[]
    ensures Under(a + b, p) == Under(a, p)
  {
    UnderUnion(a, b, p);
  }

  /** Below a path in a union whose left operand has nothing there lies what the right operand has. */
  lemma UnderOverEmpty(a: map<string, Value>, b: map<string, Value>, p: string)
    requires Under(a, p) == map[]
    ensures Under(a + b, p) == Under(b, p)
  {
    UnderUnion(a, b, p);
  }

  /** The array of a map with the indexes 0 and 1 as its only keys. */
  lemma ArrayOfTwoIndexes(entries: map<string, Value>, d0: string, d1: string, items: seq<Value>)
    requires d0 != d1 && IndexesOf(entries) == map[d0 := 0, d1 := 1]
    requires IsArrayOf(entries, items)
    ensures items == [entries[d0], entries[d1]]
  {
    ArrayOverIndexes(entries, items);
    ArrayOverTwo(entries, IndexesOf(entries), d0, d1, items);
  }

  /** The keys "0" and "1", passed as `d0` and `d1`, are the indexes 0 and 1. */
  lemma IndexesOfDigits(d0: string, d1: string, a: Value, b: Value)
    requires d0 == "0" && d1 == "1"
    ensures IndexesOf(map[d0 := a, d1 := b]) == map[d0 := 0, d1 := 1]
  {
    IndexOfDigits();
  }

  /** The index each index key of `m` stands for. */
  function IndexesOf(m: map<string, Value>): (index: map<string, nat>)
    ensures forall key :: key in index <==> key in m && IndexOf(key).Some?
    ensures forall key :: key in index ==> Some(index[key]) == IndexOf(key)
  {
    map key | key in m && IndexOf(key).Some? :: IndexOf(key).value
  }

  /** `IsArrayOf` with the index of every key given by `index`. */
  ghost predicate IsArrayOver(m: map<string, Value>, index: map<string, nat>, items: seq<Value>) {
    && index.Keys <= m.Keys
    && (forall key :: key in index ==> index[key] < |items|)
    && (exists key :: key in index && index[key] == |items| - 1)
    && (forall i :: 0 <= i < |items| ==>
          || (exists key :: key in index && index[key] == i && items[i] == m[key])
          || (items[i] == Nil && forall key :: key in index ==> index[key] != i))
  }

  lemma ArrayOverIndexes(m: map<string, Value>, items: seq<Value>)
    requires IsArrayOf(m, items)
    ensures IsArrayOver(m, IndexesOf(m), items)
  {
  }

  /** The array over two keys with the indexes 0 and 1. */
  lemma ArrayOverTwo(m: map<string, Value>, index: map<string, nat>, d0: string, d1: string, items: seq<Value>)
    requires d0 != d1 && index == map[d0 := 0, d1 := 1]
    requires IsArrayOver(m, index, items)
    ensures items == [m[d0], m[d1]]
  {
    assert d0 in index && d1 in index;
    var last :| last in index && index[last] == |items| - 1;
    assert |items| == 2;
    assert items[0] == m[d0] by {
      assert !(items[0] == Nil && forall key :: key in index ==> index[key] != 0);
    }
    assert items[1] == m[d1] by {
      assert !(items[1] == Nil && forall key :: key in index ==> index[key] != 1);
    }
  }

  // ---------------------------------------------------------------------
  // The checks the loader tests exercise

  /** The defaults pass validation. */
  lemma DefaultsAreValid()
    ensures Validate(DefaultConfig) == None
  {
  }

  lemma ValidationExamples()
    ensures Validate(DefaultConfig.(telemetryPath := "metrics")) == Some(BadTelemetryPath)
    ensures Validate(DefaultConfig.(tlsEnabled := true)) == Some(MissingTlsFiles)
    ensures Validate(DefaultConfig.(tlsEnabled := true, certFile := "cert.pem")) == Some(MissingTlsFiles)
    ensures Validate(DefaultConfig.(tlsEnabled := true, certFile := "cert.pem", keyFile := "key.pem")) == None
    ensures Validate(DefaultConfig.(timeout := -Second)) == Some(NegativeDuration)
    ensures Validate(DefaultConfig.(histogramBuckets := HistogramBuckets([1.0, -2.0], [], [], []))) == Some(BadBuckets("dns.rtt"))
    ensures Validate(DefaultConfig.(histogramBuckets := HistogramBuckets([], [], [2.0, 1.0], []))) == Some(BadBuckets("ping.rtt"))
  {
    PathAndTlsExamples();
    BucketExamples();
  }

  /** The telemetry path, TLS and duration cases of the validation tests. */
  lemma PathAndTlsExamples()
    ensures Validate(DefaultConfig.(telemetryPath := "metrics")) == Some(BadTelemetryPath)
    ensures Validate(DefaultConfig.(tlsEnabled := true)) == Some(MissingTlsFiles)
    ensures Validate(DefaultConfig.(tlsEnabled := true, certFile := "cert.pem")) == Some(MissingTlsFiles)
    ensures Validate(DefaultConfig.(tlsEnabled := true, certFile := "cert.pem", keyFile := "key.pem")) == None
    ensures Validate(DefaultConfig.(timeout := -Second)) == Some(NegativeDuration)
  {
    assert "metrics"[..1] == "m";
  }

  /** The bucket cases of the validation tests: a negative bound and a decreasing list. */
  lemma BucketExamples()
    ensures Validate(DefaultConfig.(histogramBuckets := HistogramBuckets([1.0, -2.0], [], [], []))) == Some(BadBuckets("dns.rtt"))
    ensures Validate(DefaultConfig.(histogramBuckets := HistogramBuckets([], [], [2.0, 1.0], []))) == Some(BadBuckets("ping.rtt"))
  {
    assert !NonDecreasingNonNegative([1.0, -2.0]) by {
      assert [1.0, -2.0][1] < 0.0;
    }
    assert !NonDecreasingNonNegative([2.0, 1.0]) by {
      assert [2.0, 1.0][0] > [2.0, 1.0][1];
    }
  }

}
