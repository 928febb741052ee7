/**
 * A language's translation bundle and how a dot-separated key is resolved in it
 * (the `split('.').reduce(...)` expression of assets/i18n.js).
 */
module Translation {
  import opened Wrappers

  /** A parsed locale file: a leaf string, or a mapping from keys to sub-bundles. */
  datatype Tree = Leaf(text: string) | Node(children: map<string, Tree>)

  /** JavaScript truthiness of a value met during resolution; None is null or undefined. */
  predicate Truthy(v: Option<Tree>) {
    match v
    case None => false
    case Some(Leaf(s)) => s != ""
    case Some(Node(_)) => true
  }

  /** The string a resolved value becomes once written into the DOM: a sub-bundle prints as a plain object does. */
  function TextOf(t: Tree): string {
    match t
    case Leaf(s) => s
    case Node(_) => "[object Object]"
  }

  // ---------------------------------------------------------------------------
  // Splitting a key on '.'

  /** `key.split('.')`: the pieces between dots, empty pieces included; never an empty list. */
  function Split(key: string): (segs: seq<string>)
    ensures |segs| >= 1
    ensures forall i :: 0 <= i < |segs| ==> '.' !in segs[i]
  {
    if key == [] then [""]
    else
      var tail := Split(key[1..]);
      if key[0] == '.' then [""] + tail
      else [[key[0]] + tail[0]] + tail[1..]
  }

  /** The inverse of Split: the pieces glued back together with dots. */
  function Join(segs: seq<string>): string
    requires |segs| >= 1
  {
    if |segs| == 1 then segs[0] else segs[0] + "." + Join(segs[1..])
  }

  predicate NoDots(segs: seq<string>) {
    forall i :: 0 <= i < |segs| ==> '.' !in segs[i]
  }

  /** Splitting loses nothing: the key is the pieces joined with dots. */
  lemma {:induction false} SplitJoin(key: string)
    ensures Join(Split(key)) == key
  {
    if key != [] {
      var tail := Split(key[1..]);
      SplitJoin(key[1..]);
      if key[0] == '.' {
        assert Split(key) == [""] + tail;
        assert ([""] + tail)[1..] == tail;
      } else {
        var segs := Split(key);
        assert segs == [[key[0]] + tail[0]] + tail[1..];
        if |tail| == 1 {
          assert Join(segs) == [key[0]] + tail[0];
        } else {
          assert segs[1..] == tail[1..];
          calc {
            Join(segs);
            ([key[0]] + tail[0]) + "." + Join(tail[1..]);
            [key[0]] + (tail[0] + "." + Join(tail[1..]));
            [key[0]] + Join(tail);
            [key[0]] + key[1..];
          }
        }
      }
    }
  }

  /** A dot-free prefix sticks to the first piece of whatever follows it. */
  lemma {:induction false} SplitDotFreePrefix(a: string, t: string)
    requires '.' !in a
    ensures Split(a + t) == [a + Split(t)[0]] + Split(t)[1..]
  {
    if a == [] {
      var st := Split(t);
      assert a + t == t && a + st[0] == st[0];
      assert st == [st[0]] + st[1..];
    } else {
      SplitDotFreePrefix(a[1..], t);
      assert (a + t)[0] == a[0];
      assert (a + t)[1..] == a[1..] + t;
      assert [a[0]] + (a[1..] + Split(t)[0]) == a + Split(t)[0];
    }
  }

  /** Joining dot-free pieces and splitting again gives the same pieces back. */
  lemma {:induction false} JoinSplit(segs: seq<string>)
    requires |segs| >= 1 && NoDots(segs)
    ensures Split(Join(segs)) == segs
  {
    if |segs| == 1 {
      SplitDotFreePrefix(segs[0], "");
      assert segs[0] + "" == segs[0];
    } else {
      var rest := Join(segs[1..]);
      JoinSplit(segs[1..]);
      assert Split("." + rest) == [""] + segs[1..] by {
        assert ("." + rest)[0] == '.';
        assert ("." + rest)[1..] == rest;
      }
      SplitDotFreePrefix(segs[0], "." + rest);
      assert segs[0] + "." + rest == segs[0] + ("." + rest);
      assert segs[0] + "" == segs[0];
    }
  }

  // ---------------------------------------------------------------------------
  // Resolving the pieces one at a time

  /**
   * One step of the fold: `(obj && obj[k] !== 'undefined') ? obj[k] : null`.
   * Only a truthy mapping can be indexed; the comparison is against the STRING
   * "undefined", so a child that is that very string reads as absent.
   */
  function Step(v: Option<Tree>, k: string): (r: Option<Tree>)
    ensures r.Some? <==>
      Truthy(v) && v.value.Node? && k in v.value.children && v.value.children[k] != Leaf("undefined")
    ensures r.Some? ==> r.value == v.value.children[k]
  {
    if !Truthy(v) then None
    else match v.value
      case Leaf(_) => None
      case Node(m) => if k in m && m[k] != Leaf("undefined") then Some(m[k]) else None
  }

  /** The fold of Step over the pieces, left to right, starting from `v`. */
  function Resolve(v: Option<Tree>, segs: seq<string>): (r: Option<Tree>)
    ensures segs == [] ==> r == v
    // a falsy start value has nothing to index
    ensures segs != [] && !Truthy(v) ==> r == None
    // a value reached by at least one step is never the string "undefined"
    ensures segs != [] && r.Some? ==> r.value != Leaf("undefined")
    decreases |segs|
  {
    if segs == [] then v else Resolve(Step(v, segs[0]), segs[1..])
  }

  /** The translation a key selects in a bundle (`translations[lang]`, possibly absent). */
  function Lookup(bundle: Option<Tree>, key: string): (r: Option<Tree>)
    ensures !Truthy(bundle) ==> r == None
    ensures r.Some? ==> r.value != Leaf("undefined")
    ensures bundle.Some? ==>
      r == if At(bundle.value, Split(key)) == Some(Leaf("undefined")) then None else At(bundle.value, Split(key))
  {
    if bundle.Some? then ResolveIsAt(bundle.value, Split(key)); Resolve(bundle, Split(key))
    else Resolve(bundle, Split(key))
  }

  /** Nothing comes out of nothing: an absent value stays absent whatever pieces follow. */
  lemma {:induction false} AbsentStaysAbsent(segs: seq<string>)
    ensures Resolve(None, segs) == None
    decreases |segs|
  {
    if segs != [] {
      AbsentStaysAbsent(segs[1..]);
    }
  }

  /** Resolution is a left fold: resolving `a + b` resolves `a`, then `b` from there. */
  lemma {:induction false} ResolveAppend(v: Option<Tree>, a: seq<string>, b: seq<string>)
    ensures Resolve(v, a + b) == Resolve(Resolve(v, a), b)
    decreases |a|
  {
    if a != [] {
      assert (a + b)[0] == a[0];
      assert (a + b)[1..] == a[1..] + b;
      ResolveAppend(Step(v, a[0]), a[1..], b);
    } else {
      assert a + b == b;
    }
  }

  /** Once an intermediate value is falsy, every further piece yields absent. */
  lemma OnceFalsyAlwaysAbsent(v: Option<Tree>, a: seq<string>, b: seq<string>)
    requires b != [] && !Truthy(Resolve(v, a))
    ensures Resolve(v, a + b) == None
  {
    ResolveAppend(v, a, b);
    AbsentStaysAbsent(b[1..]);
  }

  /** Reference definition: the sub-bundle reached by following `path` down the mappings. */
  function At(t: Tree, path: seq<string>): Option<Tree>
    decreases |path|
  {
    if path == [] then Some(t)
    else match t
      case Leaf(_) => None
      case Node(m) => if path[0] in m then At(m[path[0]], path[1..]) else None
  }

  /**
   * The fold agrees with walking the tree, except that a non-empty path ending
   * on the string "undefined" reads as absent.
   */
  lemma {:induction false} ResolveIsAt(t: Tree, path: seq<string>)
    ensures Resolve(Some(t), path) ==
      if path != [] && At(t, path) == Some(Leaf("undefined")) then None else At(t, path)
    decreases |path|
  {
    if path != [] {
      match t
      case Leaf(_) =>
        AbsentStaysAbsent(path[1..]);
      case Node(m) =>
        var k := path[0];
        if k !in m || m[k] == Leaf("undefined") {
          AbsentStaysAbsent(path[1..]);
        } else {
          ResolveIsAt(m[k], path[1..]);
        }
    }
  }

  /** A key written as dot-free pieces joined by dots finds what the pieces point to. */
  lemma LookupJoin(t: Tree, path: seq<string>)
    requires |path| >= 1 && NoDots(path)
    ensures Lookup(Some(t), Join(path)) ==
      if At(t, path) == Some(Leaf("undefined")) then None else At(t, path)
  {
    JoinSplit(path);
  }
}
