/** A captured PHP frame, its rendering, and the `--drop-leaf` filter. */
module Frames {
  import opened Wrappers

  datatype Frame = Frame(func: string, cls: Option<string>, file: Option<string>, line: nat)

  /** `Class::method` or a bare function name: the spelling every output uses. */
  function QualifiedName(f: Frame): string {
    match f.cls
    case Some(c) => c + "::" + f.func
    case None => f.func
  }

  function QualifiedNames(frames: seq<Frame>): (names: seq<string>)
    ensures |names| == |frames|
    ensures forall i :: 0 <= i < |frames| ==> names[i] == QualifiedName(frames[i])
  {
    seq(|frames|, i requires 0 <= i < |frames| => QualifiedName(frames[i]))
  }

  /** `str::split_once("::")`: cut at the first occurrence of the separator. */
  function SplitOnce(s: string): (r: Option<(string, string)>)
    ensures r.Some? ==> r.value.0 + "::" + r.value.1 == s
    ensures r.Some? ==> !HasSeparator(r.value.0 + ":")
    ensures r.Some? <==> HasSeparator(s)
  {
    if |s| < 2 then None
    else if s[0] == ':' && s[1] == ':' then
      assert s == "" + "::" + s[2..];
      Some(("", s[2..]))
    else
      assert HasSeparator(s[1..]) <==> HasSeparator(s);
      match SplitOnce(s[1..])
      case None => None
      case Some((a, b)) =>
        assert s == [s[0]] + a + "::" + b;
        assert !HasSeparator([s[0]] + a + ":") by {
          assert ([s[0]] + a + ":")[1..] == a + ":";
          assert a != "" ==> a[0] == s[1];
        }
        Some(([s[0]] + a, b))
  }

  predicate HasSeparator(s: string) {
    if |s| < 2 then false else (s[0] == ':' && s[1] == ':') || HasSeparator(s[1..])
  }

  predicate NameMatches(leaf: Frame, name: string) {
    match (leaf.cls, SplitOnce(name))
    case (Some(c), Some(parts)) => c == parts.0 && leaf.func == parts.1
    case (None, None) => leaf.func == name
    case _ => false
  }

  predicate LeafIsAny(frames: seq<Frame>, names: seq<string>) {
    |frames| > 0 && exists i :: 0 <= i < |names| && NameMatches(frames[0], names[i])
  }

  /** A frame whose rendering can be told apart from other frames' by cutting it at its first `::`. */
  predicate Splittable(f: Frame) {
    match f.cls
    case Some(c) => !HasSeparator(c + ":")
    case None => !HasSeparator(f.func)
  }

  lemma {:induction false} SplitJoined(c: string, f: string)
    requires !HasSeparator(c + ":")
    ensures SplitOnce(c + "::" + f) == Some((c, f))
  {
    var s := c + "::" + f;
    if c == "" {
      assert s[2..] == f;
    } else {
      assert s[1..] == c[1..] + "::" + f;
      assert (c + ":")[1..] == c[1..] + ":";
      assert s[0] == (c + ":")[0] && s[1] == (c + ":")[1];
      SplitJoined(c[1..], f);
      assert c == [c[0]] + c[1..];
    }
  }

  /**
   * The filter drops exactly the stacks whose leaf renders as a listed name, for every list of names,
   * if and only if the leaf is splittable. A class-less function with `::` in its name, such as a
   * PHP 8.4 closure, is rendered but never matched.
   */
  lemma LeafFilterMatchesRendering(frames: seq<Frame>)
    requires frames != []
    ensures (forall names: seq<string> :: LeafIsAny(frames, names) <==> QualifiedName(frames[0]) in names)
       <==> Splittable(frames[0])
  {
    var leaf := frames[0];
    var rendered := QualifiedName(leaf);
    if Splittable(leaf) {
      forall names: seq<string>
        ensures LeafIsAny(frames, names) <==> rendered in names
      {
        forall i | 0 <= i < |names|
          ensures NameMatches(leaf, names[i]) <==> names[i] == rendered
        {
          if leaf.cls.Some? { SplitJoined(leaf.cls.value, leaf.func); }
        }
      }
    } else {
      assert !NameMatches(leaf, rendered);
      assert !LeafIsAny(frames, [rendered]);
      assert rendered in [rendered];
    }
  }

  /** The promise fails: `--drop-leaf` with the exact name the outputs print does not drop this stack. */
  lemma UnsplittableLeafIsKept()
    ensures var f := Frame("{closure:A::b():3}", None, None, 3);
            QualifiedName(f) == "{closure:A::b():3}" && !LeafIsAny([f], [QualifiedName(f)])
  {
    var f := Frame("{closure:A::b():3}", None, None, 3);
    var s := f.func;
    assert s[10..] == "::b():3}";
    assert HasSeparator(s[10..]);
    SuffixSeparator(s, 10);
    assert SplitOnce(s).Some?;
  }

  lemma {:induction false} SuffixSeparator(s: string, k: nat)
    requires k <= |s| && HasSeparator(s[k..])
    ensures HasSeparator(s)
    decreases k
  {
    if k == 0 {
      assert s[0..] == s;
    } else {
      assert s[k - 1..][1..] == s[k..];
      SuffixSeparator(s, k - 1);
    }
  }
}
