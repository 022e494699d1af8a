/**
 * The configuration tags of a red node (redConfTagT) and the policy by which
 * loadNode folds them, node after node, into one merged set of tags.
 */
module RedConf {
  import opened Wrappers

  /** A RED_CONF_OPT_* option; the zero that calloc leaves behind is Unset. */
  datatype TriState = Unset | Enabled | Disabled

  /** The tags of one configuration block (node->config->conftag). */
  datatype ConfTag = ConfTag(
    hostname: Option<string>,
    chdir: Option<string>,
    shareAll: TriState,
    shareUser: TriState,
    shareCgroup: TriState,
    shareIpc: TriState,
    sharePid: TriState,
    shareNet: TriState,
    dieWithParent: TriState,
    newSession: TriState,
    umask: Option<nat>,
    cgroups: Option<string>,
    path: Option<string>,
    ldpath: Option<string>)

  /** The administrator's override file (node->confadmin); its conftag may itself be NULL. */
  datatype AdminConf = AdminConf(conftag: Option<ConfTag>)

  /** One node of the family tree, with what the launcher reads of its headers and status. */
  datatype Node = Node(
    alias: string,
    name: string,
    realpath: string,
    conftag: ConfTag,
    confadmin: Option<AdminConf>)

  /** The merged tags as calloc returns them: nothing set. */
  const EmptyTags := ConfTag(None, None, Unset, Unset, Unset, Unset, Unset, Unset,
                             Unset, Unset, None, None, None, None)

  /** Names the fields of a ConfTag, so that the merge policy can be stated once for all of them. */
  datatype Field = Hostname | Chdir | ShareAll | ShareUser | ShareCgroup | ShareIpc | SharePid
                 | ShareNet | DieWithParent | NewSession | Umask | Cgroups | Path | LdPath

  datatype Value = Text(text: Option<string>) | Tri(state: TriState) | Mask(mask: Option<nat>)

  function Get(t: ConfTag, f: Field): Value {
    match f
    case Hostname => Text(t.hostname)
    case Chdir => Text(t.chdir)
    case ShareAll => Tri(t.shareAll)
    case ShareUser => Tri(t.shareUser)
    case ShareCgroup => Tri(t.shareCgroup)
    case ShareIpc => Tri(t.shareIpc)
    case SharePid => Tri(t.sharePid)
    case ShareNet => Tri(t.shareNet)
    case DieWithParent => Tri(t.dieWithParent)
    case NewSession => Tri(t.newSession)
    case Umask => Mask(t.umask)
    case Cgroups => Text(t.cgroups)
    case Path => Text(t.path)
    case LdPath => Text(t.ldpath)
  }

  /** A field is set when it is not NULL / not Unset. */
  predicate IsSet(v: Value) {
    match v
    case Text(s) => s.Some?
    case Tri(t) => t != Unset
    case Mask(m) => m.Some?
  }

  function KeepOption<T>(dst: Option<T>, src: Option<T>): Option<T> {
    if dst.Some? then dst else src
  }

  function KeepTri(dst: TriState, src: TriState): TriState {
    if dst != Unset then dst else src
  }

  /**
   * RedConfCopyConfTags(src, dst): its body is not part of this model; the
   * policy assumed here is first-assignment-wins, field by field: a field the
   * merged tags already hold is kept, any other field takes the source's value.
   */
  function CopyConfTags(src: ConfTag, dst: ConfTag): (r: ConfTag)
    ensures forall f :: Get(r, f) == if IsSet(Get(dst, f)) then Get(dst, f) else Get(src, f)
  {
    ConfTag(
      KeepOption(dst.hostname, src.hostname),
      KeepOption(dst.chdir, src.chdir),
      KeepTri(dst.shareAll, src.shareAll),
      KeepTri(dst.shareUser, src.shareUser),
      KeepTri(dst.shareCgroup, src.shareCgroup),
      KeepTri(dst.shareIpc, src.shareIpc),
      KeepTri(dst.sharePid, src.sharePid),
      KeepTri(dst.shareNet, src.shareNet),
      KeepTri(dst.dieWithParent, src.dieWithParent),
      KeepTri(dst.newSession, src.newSession),
      KeepOption(dst.umask, src.umask),
      KeepOption(dst.cgroups, src.cgroups),
      KeepOption(dst.path, src.path),
      KeepOption(dst.ldpath, src.ldpath))
  }

  /** Copying the same tags twice changes nothing the first copy did not. */
  lemma CopyConfTagsIdempotent(src: ConfTag, dst: ConfTag)
    ensures CopyConfTags(src, CopyConfTags(src, dst)) == CopyConfTags(src, dst)
  {
  }

  /** True when the node carries an administrator conftag that loadNode merges. */
  predicate HasAdminTags(n: Node) {
    n.confadmin.Some? && n.confadmin.value.conftag.Some?
  }

  /** The conftags loadNode merges for one node, in merge order: its own, then the admin's. */
  function NodeTags(n: Node): (ts: seq<ConfTag>)
    ensures 1 <= |ts| <= 2 && ts[0] == n.conftag
    ensures |ts| == 2 <==> HasAdminTags(n)
    ensures |ts| == 2 ==> ts[1] == n.confadmin.value.conftag.value
  {
    [n.conftag] + (if HasAdminTags(n) then [n.confadmin.value.conftag.value] else [])
  }

  /** The merge step of loadNode: the node's own conftag, then its admin conftag when present. */
  function MergeNode(n: Node, merged: ConfTag): (r: ConfTag)
    ensures forall f :: IsSet(Get(merged, f)) ==> Get(r, f) == Get(merged, f)
    ensures forall f :: !IsSet(Get(merged, f)) && IsSet(Get(n.conftag, f)) ==> Get(r, f) == Get(n.conftag, f)
    ensures !HasAdminTags(n) ==> forall f :: !IsSet(Get(merged, f)) ==> Get(r, f) == Get(n.conftag, f)
    ensures HasAdminTags(n) ==> forall f :: !IsSet(Get(merged, f)) && !IsSet(Get(n.conftag, f)) ==>
              Get(r, f) == Get(n.confadmin.value.conftag.value, f)
  {
    var own := CopyConfTags(n.conftag, merged);
    if HasAdminTags(n) then CopyConfTags(n.confadmin.value.conftag.value, own) else own
  }

  /** All conftags a walk over `chain` (leaf first) merges, in merge order. */
  function WalkTags(chain: seq<Node>): seq<ConfTag>
  {
    if chain == [] then [] else WalkTags(chain[..|chain| - 1]) + NodeTags(chain[|chain| - 1])
  }

  /** The fold of CopyConfTags over `tags`, starting from the calloc'ed empty tags. */
  function MergeAll(tags: seq<ConfTag>): ConfTag
  {
    if tags == [] then EmptyTags else CopyConfTags(tags[|tags| - 1], MergeAll(tags[..|tags| - 1]))
  }

  /** The merged tags once every node of `chain` has been loaded, leaf first. */
  function MergeChain(chain: seq<Node>): ConfTag {
    if chain == [] then EmptyTags else MergeNode(chain[|chain| - 1], MergeChain(chain[..|chain| - 1]))
  }

  /**
   * Reference definition of the merged value of one field: the value of the
   * first conftag, in merge order, that sets it; unset when none does.
   */
  function FirstSet(tags: seq<ConfTag>, f: Field): Value
  {
    if tags == [] then Get(EmptyTags, f)
    else if IsSet(Get(tags[0], f)) then Get(tags[0], f)
    else FirstSet(tags[1..], f)
  }

  /** Every unset value of a field is the same value: the field's empty value. */
  lemma UnsetIsEmpty(t: ConfTag, f: Field)
    requires !IsSet(Get(t, f))
    ensures Get(t, f) == Get(EmptyTags, f)
  {
  }

  /** Appending one conftag after the others only fills in fields still unset. */
  lemma {:induction false} FirstSetSnoc(tags: seq<ConfTag>, last: ConfTag, f: Field)
    ensures FirstSet(tags + [last], f) ==
            if IsSet(FirstSet(tags, f)) then FirstSet(tags, f) else Get(last, f)
  {
    if tags == [] {
      assert [] + [last] == [last];
      if !IsSet(Get(last, f)) { UnsetIsEmpty(last, f); }
    } else {
      assert (tags + [last])[1..] == tags[1..] + [last];
      if !IsSet(Get(tags[0], f)) {
        FirstSetSnoc(tags[1..], last, f);
      }
    }
  }

  /** The merge is first-assignment-wins across the whole walk: a field keeps the first value set. */
  lemma {:induction false} MergeFirstWins(tags: seq<ConfTag>, f: Field)
    ensures Get(MergeAll(tags), f) == FirstSet(tags, f)
  {
    if tags != [] {
      var init, last := tags[..|tags| - 1], tags[|tags| - 1];
      assert tags == init + [last];
      MergeFirstWins(init, f);
      FirstSetSnoc(init, last, f);
      if !IsSet(Get(MergeAll(init), f)) && !IsSet(Get(last, f)) {
        UnsetIsEmpty(last, f);
        UnsetIsEmpty(MergeAll(init), f);
      }
    }
  }

  /** Loading one more node merges exactly that node's tags into what was merged before. */
  lemma MergeChainStep(chain: seq<Node>, k: nat)
    requires k < |chain|
    ensures MergeChain(chain[..k + 1]) == MergeNode(chain[k], MergeChain(chain[..k]))
  {
    var p := chain[..k + 1];
    assert p[..|p| - 1] == chain[..k];
  }

  /** Merging node by node is the same as copying every conftag of the walk, in order. */
  lemma {:induction false} MergeChainIsMergeAll(chain: seq<Node>)
    ensures MergeChain(chain) == MergeAll(WalkTags(chain))
  {
    if chain != [] {
      var init := chain[..|chain| - 1];
      MergeChainIsMergeAll(init);
      var w := WalkTags(init);
      var n := chain[|chain| - 1];
      if HasAdminTags(n) {
        var a := n.confadmin.value.conftag.value;
        var wo := w + [n.conftag];
        assert WalkTags(chain) == wo + [a];
        assert (wo + [a])[..|wo|] == wo;
        assert wo[..|w|] == w;
        assert MergeAll(wo + [a]) == CopyConfTags(a, MergeAll(wo));
        assert MergeAll(wo) == CopyConfTags(n.conftag, MergeAll(w));
      } else {
        assert WalkTags(chain) == w + [n.conftag];
        assert (w + [n.conftag])[..|w|] == w;
      }
    }
  }

  /** Of two nodes that both set a field, the one nearer the leaf decides it. */
  lemma {:induction false} LeafWinsOverAncestor(chain: seq<Node>, f: Field, i: nat)
    requires i < |chain|
    requires IsSet(Get(chain[i].conftag, f))
    requires forall j :: 0 <= j < i ==> !IsSet(Get(chain[j].conftag, f)) && !(HasAdminTags(chain[j]) && IsSet(Get(chain[j].confadmin.value.conftag.value, f)))
    ensures Get(MergeChain(chain), f) == Get(chain[i].conftag, f)
  {
    MergeChainIsMergeAll(chain);
    MergeFirstWins(WalkTags(chain), f);
    FirstSetOfWalk(chain, f, i);
  }

  lemma {:induction false} FirstSetOfWalk(chain: seq<Node>, f: Field, i: nat)
    requires i < |chain|
    requires IsSet(Get(chain[i].conftag, f))
    requires forall j :: 0 <= j < i ==> !IsSet(Get(chain[j].conftag, f)) && !(HasAdminTags(chain[j]) && IsSet(Get(chain[j].confadmin.value.conftag.value, f)))
    ensures FirstSet(WalkTags(chain), f) == Get(chain[i].conftag, f)
  {
    if i == |chain| - 1 {
      var init := chain[..i];
      FirstSetUnsetPrefix(chain, f, i);
      assert chain[..|chain| - 1] == init;
      FirstSetAppend(WalkTags(init), NodeTags(chain[i]), f);
    } else {
      var init := chain[..|chain| - 1];
      assert init[i] == chain[i];
      assert forall j :: 0 <= j < i ==> init[j] == chain[j];
      FirstSetOfWalk(init, f, i);
      FirstSetAppend(WalkTags(init), NodeTags(chain[|chain| - 1]), f);
    }
  }

  /** A walk over nodes none of which sets the field leaves it unset. */
  lemma {:induction false} FirstSetUnsetPrefix(chain: seq<Node>, f: Field, i: nat)
    requires i <= |chain|
    requires forall j :: 0 <= j < i ==> !IsSet(Get(chain[j].conftag, f)) && !(HasAdminTags(chain[j]) && IsSet(Get(chain[j].confadmin.value.conftag.value, f)))
    ensures !IsSet(FirstSet(WalkTags(chain[..i]), f))
  {
    if i > 0 {
      var p := chain[..i];
      assert p[..|p| - 1] == chain[..i - 1];
      FirstSetUnsetPrefix(chain, f, i - 1);
      var ts := NodeTags(chain[i - 1]);
      FirstSetAppend(WalkTags(chain[..i - 1]), ts, f);
      assert !IsSet(Get(EmptyTags, f)) by { match f case _ => }
      assert !IsSet(Get(ts[0], f));
      if |ts| == 2 {
        assert !IsSet(Get(ts[1], f));
        assert ts[1..][1..] == [];
        assert !IsSet(FirstSet(ts[1..], f));
      } else {
        assert ts[1..] == [];
      }
      assert WalkTags(p) == WalkTags(chain[..i - 1]) + ts;
      assert !IsSet(FirstSet(ts, f));
    }
  }

  /** FirstSet over a concatenation: the first part decides if it sets the field. */
  lemma {:induction false} FirstSetAppend(a: seq<ConfTag>, b: seq<ConfTag>, f: Field)
    ensures FirstSet(a + b, f) == if IsSet(FirstSet(a, f)) then FirstSet(a, f) else FirstSet(b, f)
  {
    if a == [] {
      assert [] + b == b;
    } else {
      assert (a + b)[1..] == a[1..] + b;
      FirstSetAppend(a[1..], b, f);
    }
  }
}
