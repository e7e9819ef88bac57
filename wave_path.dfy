// Path components and the depth / symlink bookkeeping that keeps a resolved
// path inside the sandbox (wave/flux/src/tcb/path.rs).

module Path {
  import opened SandboxTypes

  /** `i32::MIN`: the depth reported for a path holding a root component. */
  const DEPTH_ERR: int := -0x8000_0000

  datatype OwnedComponent = RootDir | CurDir | ParentDir | Normal(name: seq<u8>)

  /** A serialised host path together with the four facts the source tracks
      about it as refinement indices. */
  datatype HostPath = HostPath(
    inner: seq<u8>,
    depth: int,
    is_relative: bool,
    non_symlink: bool,
    non_symlink_prefixes: bool)

  /** `HostPathSafe(b)`: never above the sandbox root, relative, every proper
      prefix resolved, and with `b` the path itself is not a symlink either. */
  predicate HostPathSafe(v: HostPath, should_follow: bool) {
    v.depth >= 0 && v.is_relative && (should_follow ==> v.non_symlink) && v.non_symlink_prefixes
  }

  // ---------------------------------------------------------------------------
  // Depth of a component sequence

  /** Depth change of one component (a root component never gets here). */
  function Delta(c: OwnedComponent): int {
    match c
    case ParentDir => -1
    case Normal(_) => 1
    case _ => 0
  }

  /** #Normal - #ParentDir. */
  function NetDepth(cs: seq<OwnedComponent>): int {
    if cs == [] then 0 else Delta(cs[0]) + NetDepth(cs[1..])
  }

  /** The scan `min_depth` performs, from running depth `depth`: a root
      component yields DEPTH_ERR, the first negative running depth is returned
      as it is, otherwise the final depth. */
  function DepthScan(cs: seq<OwnedComponent>, depth: int): int {
    if cs == [] then depth
    else if cs[0] == RootDir then DEPTH_ERR
    else
      var d := depth + Delta(cs[0]);
      if d < 0 then d else DepthScan(cs[1..], d)
  }

  /** The scan never meets a root component nor a negative running depth. */
  ghost predicate StaysInside(cs: seq<OwnedComponent>, depth: int) {
    RootDir !in cs && forall k :: 0 <= k <= |cs| ==> depth + NetDepth(cs[..k]) >= 0
  }

  lemma {:induction false} NetDepthPrefix(cs: seq<OwnedComponent>, k: nat)
    requires 0 < k <= |cs|
    ensures NetDepth(cs[..k]) == Delta(cs[0]) + NetDepth(cs[1..][..k - 1])
  {
    assert cs[..k][1..] == cs[1..][..k - 1];
  }

  /** A non-negative result of the scan means the path stays inside the
      sandbox all the way, and it is then the net depth; a negative result is
      DEPTH_ERR or -1, since the depth moves by one at a time. */
  lemma {:induction false} DepthScanMeaning(cs: seq<OwnedComponent>, depth: nat)
    ensures DepthScan(cs, depth) >= 0 <==> StaysInside(cs, depth)
    ensures DepthScan(cs, depth) >= 0 ==> DepthScan(cs, depth) == depth + NetDepth(cs)
    ensures DepthScan(cs, depth) < 0 ==> DepthScan(cs, depth) == DEPTH_ERR || DepthScan(cs, depth) == -1
  {
    if cs == [] {
      assert cs[..0] == [];
    } else if cs[0] == RootDir {
      assert RootDir in cs;
    } else {
      var d := depth + Delta(cs[0]);
      assert cs[..1] == [cs[0]];
      assert NetDepth(cs[..1]) == Delta(cs[0]) by {
        assert cs[..1][1..] == [];
      }
      if d < 0 {
        assert !StaysInside(cs, depth) by {
          assert depth + NetDepth(cs[..1]) < 0;
        }
      } else {
        DepthScanMeaning(cs[1..], d);
        if StaysInside(cs[1..], d) {
          assert RootDir !in cs by {
            assert cs == [cs[0]] + cs[1..];
          }
          forall k | 0 <= k <= |cs|
            ensures depth + NetDepth(cs[..k]) >= 0
          {
            if k > 0 {
              NetDepthPrefix(cs, k);
            } else {
              assert cs[..0] == [];
            }
          }
        } else if RootDir in cs[1..] {
          assert RootDir in cs;
        } else {
          var k :| 0 <= k <= |cs[1..]| && d + NetDepth(cs[1..][..k]) < 0;
          NetDepthPrefix(cs, k + 1);
          assert depth + NetDepth(cs[..k + 1]) < 0;
        }
      }
    }
  }

  /** ["a", "..", "b"] ends at depth 1; a leading ".." escapes at once. */
  lemma DepthExamples(a: seq<u8>, b: seq<u8>)
    ensures DepthScan([Normal(a), ParentDir, Normal(b)], 0) == 1
    ensures DepthScan([ParentDir, Normal(a)], 0) == -1
    ensures DepthScan([Normal(a), RootDir], 0) == DEPTH_ERR
  {
    assert [Normal(a), ParentDir, Normal(b)][1..] == [ParentDir, Normal(b)];
    assert [ParentDir, Normal(b)][1..] == [Normal(b)];
    assert [Normal(b)][1..] == [];
    assert DepthScan([Normal(b)], 0) == 1;
    assert DepthScan([ParentDir, Normal(b)], 1) == 1;
    assert [Normal(a), RootDir][1..] == [RootDir];
  }

  // ---------------------------------------------------------------------------
  // FOwnedComponents

  /** A growing sequence of components. `ns_prefix` counts the leading
      components known not to be symlinks; the source tracks it as a
      refinement index only, here it is a plain field. */
  class FOwnedComponents {
    var inner: seq<OwnedComponent>
    var ns_prefix: int

    /** `new` and `fresh_components`: size 0, ns_prefix 0, depth 0, not relative. */
    constructor ()
      ensures inner == [] && ns_prefix == 0
      ensures Size() == 0 && Depth() == 0 && !RelativeIndex()
    {
      inner := [];
      ns_prefix := 0;
    }

    function Size(): nat
      reads this
    {
      |inner|
    }

    /** The `depth` index: what `min_depth` computes. */
    function Depth(): int
      reads this
    {
      DepthScan(inner, 0)
    }

    /** The `is_relative` index: a first component that is not the root. */
    function RelativeIndex(): bool
      reads this
    {
      |inner| > 0 && inner[0] != RootDir
    }

    predicate NoSymLinks()
      reads this
    {
      Size() == ns_prefix
    }

    /** `LastSymLink(b)`: every proper prefix is resolved, and with `b` the
        whole path is. */
    predicate LastSymLink(b: bool)
      reads this
    {
      Size() - 1 <= ns_prefix && (b ==> Size() == ns_prefix)
    }

    function Len(): nat
      reads this
    {
      |inner|
    }

    function Lookup(idx: nat): OwnedComponent
      reads this
      requires idx < Size()
    {
      inner[idx]
    }

    method Push(value: OwnedComponent)
      modifies this
      ensures inner == old(inner) + [value]
      ensures Size() == old(Size()) + 1 && ns_prefix == old(ns_prefix)
    {
      inner := inner + [value];
    }

    /** `unparse`: serialisation is the library's (`serialize`); the result
        carries this sequence's depth and relativity, and its symlink facts
        follow from `ns_prefix`. */
    function Unparse(serialize: seq<OwnedComponent> -> Option<seq<u8>>): (r: Option<HostPath>)
      reads this
      ensures r.None? <==> serialize(inner).None?
      ensures r.Some? ==> HostPathOc(r.value, this)
    {
      match serialize(inner)
      case None => None
      case Some(bytes) =>
        Some(HostPath(bytes, Depth(), RelativeIndex(), Size() == ns_prefix, Size() - 1 <= ns_prefix))
    }
  }

  /** `HostPathOc(oc)`: the path records exactly what `oc` knew. */
  predicate HostPathOc(v: HostPath, oc: FOwnedComponents)
    reads oc
  {
    v.depth == oc.Depth() && v.is_relative == oc.RelativeIndex()
    && v.non_symlink == (oc.Size() == oc.ns_prefix)
    && v.non_symlink_prefixes == (oc.Size() - 1 <= oc.ns_prefix)
  }

  /** A sequence that stays inside the sandbox, whose prefixes are resolved
      (and, with `b`, the last component too) unparses to a safe host path. */
  lemma UnparseSafe(oc: FOwnedComponents, serialize: seq<OwnedComponent> -> Option<seq<u8>>, b: bool)
    requires oc.Size() > 0 && StaysInside(oc.inner, 0) && oc.LastSymLink(b)
    requires oc.Unparse(serialize).Some?
    ensures HostPathSafe(oc.Unparse(serialize).value, b)
  {
    DepthScanMeaning(oc.inner, 0);
  }

  /** `is_relative`: the first component is not the root (the path must not be empty). */
  function IsRelative(c: FOwnedComponents): (r: bool)
    reads c
    requires c.Size() > 0
    ensures r == c.RelativeIndex()
  {
    !(c.Lookup(0) == RootDir)
  }

  /** A path whose scan stays non-negative holds no root component, so it is relative. */
  lemma InsideIsRelative(cs: seq<OwnedComponent>)
    requires |cs| > 0 && DepthScan(cs, 0) >= 0
    ensures cs[0] != RootDir
  {
    DepthScanMeaning(cs, 0);
  }

  /** `min_depth`: the scan as a loop over the components. */
  method MinDepth(components: FOwnedComponents) returns (depth: int)
    ensures depth == components.Depth()
  {
    var curr_depth := 0;
    var idx := 0;
    while idx < components.Len()
      invariant 0 <= idx <= components.Size()
      invariant curr_depth >= 0
      invariant DepthScan(components.inner[idx..], curr_depth) == components.Depth()
    {
      assert components.inner[idx..][1..] == components.inner[idx + 1..];
      match components.Lookup(idx) {
        case RootDir =>
          return DEPTH_ERR;
        case CurDir =>
        case ParentDir =>
          curr_depth := curr_depth - 1;
        case Normal(_) =>
          curr_depth := curr_depth + 1;
      }
      if curr_depth < 0 {
        return curr_depth;
      }
      idx := idx + 1;
    }
    depth := curr_depth;
  }

  /** `fresh_components`: an empty sequence. */
  method FreshComponents() returns (oc: FOwnedComponents)
    ensures fresh(oc)
    ensures oc.Size() == 0 && oc.ns_prefix == 0 && oc.Depth() == 0 && !oc.RelativeIndex()
  {
    oc := new FOwnedComponents();
  }

  /** `read_linkat_h`: ask the host (`readlinkat`, with the library's parser
      folded in) whether `out_path` under `dirfd` is a symlink. The source
      leaves the refinement indices of the returned sequence to its assumed
      signature; here the link's components come back with `ns_prefix` set to
      their count, so the result counts as having no symlinks. */
  method ReadLinkAtH(
    readlinkat: (usize, seq<OwnedComponent>) -> Option<seq<OwnedComponent>>,
    dirfd: HostFd, out_path: FOwnedComponents)
    returns (r: Option<FOwnedComponents>)
    ensures r.None? <==> readlinkat(dirfd.ToRaw(), out_path.inner).None?
    ensures r.Some? ==>
      fresh(r.value)
      && r.value.inner == readlinkat(dirfd.ToRaw(), out_path.inner).value
      && r.value.NoSymLinks()
  {
    match readlinkat(dirfd.ToRaw(), out_path.inner)
    case None =>
      r := None;
    case Some(target) =>
      var oc := new FOwnedComponents();
      oc.inner := target;
      oc.ns_prefix := |target|;
      r := Some(oc);
  }

  /** `maybe_expand_component`: append `comp`; if the result is a symlink, take
      `comp` back off, count the expansion and hand back the link's
      components; otherwise `comp` stays, now known not to be a symlink. */
  method MaybeExpandComponent(
    readlinkat: (usize, seq<OwnedComponent>) -> Option<seq<OwnedComponent>>,
    dirfd: HostFd, out_path: FOwnedComponents, comp: OwnedComponent, num_symlinks: int)
    returns (link: Option<FOwnedComponents>, num_symlinks': int)
    requires out_path.NoSymLinks()
    modifies out_path
    ensures out_path.NoSymLinks()
    ensures readlinkat(dirfd.ToRaw(), old(out_path.inner) + [comp]).Some? ==>
      out_path.inner == old(out_path.inner)
      && num_symlinks' == num_symlinks + 1
      && link.Some? && fresh(link.value)
      && link.value.inner == readlinkat(dirfd.ToRaw(), old(out_path.inner) + [comp]).value
    ensures readlinkat(dirfd.ToRaw(), old(out_path.inner) + [comp]).None? ==>
      out_path.inner == old(out_path.inner) + [comp]
      && num_symlinks' == num_symlinks
      && link.None?
  {
    out_path.Push(comp);
    var linkpath := ReadLinkAtH(readlinkat, dirfd, out_path);
    if linkpath.Some? {
      // pop the component just added: it is a symlink
      out_path.inner := out_path.inner[..|out_path.inner| - 1];
      assert out_path.inner == old(out_path.inner);
      num_symlinks' := num_symlinks + 1;
      link := linkpath;
      return;
    }
    // Not in the source, where `ns_prefix` is only a refinement index and the
    // `NoSymLinks` result is assumed: the host said the new component is not
    // a link, so the prefix known free of links grows by one.
    out_path.ns_prefix := out_path.ns_prefix + 1;
    num_symlinks' := num_symlinks;
    link := None;
  }

  /** What `resolve_path` promises and `translate_path` relies on. */
  ghost predicate ResolverSafe(resolve: (seq<u8>, bool, HostFd) -> Result<HostPath>) {
    forall buf, b, fd :: resolve(buf, b, fd).Ok? ==> HostPathSafe(resolve(buf, b, fd).value, b)
  }
}
