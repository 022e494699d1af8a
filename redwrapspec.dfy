/**
 * What redwrapMain does, as functions of its inputs: the effects it has on
 * the world (environment, umask, cgroups, execv) and the way it ends.
 *
 * The collaborators whose code is not part of this model are parameters:
 * `parse` stands for RwrapParseNode (the per-node argument fragment, or
 * None when it fails) and `expand` for RedNodeStringExpand applied to the
 * leaf node. RedNodesScan is its result: None when the scan fails, else the
 * family chain, leaf first (index 0) and root (no ancestor) last.
 */
module RedwrapSpec {
  import opened Wrappers
  import opened RedConf
  import opened EnvPath

  type Parser = (Node, bool) -> Option<seq<string>>
  type Expander = (Node, string) -> string

  /** The side effects on the process and the world, in the order they happen. */
  datatype Effect =
    | PutEnv(key: string, value: string)
    | SetUmask(tags: ConfTag)
    | CgroupsCall(spec: Option<string>, realpath: string)
    | Exec(bwrap: string, argv: seq<string>)

  datatype Error =
    | ScanError
    | NodeArgError(node: nat)
    | LdPathOverflow(node: nat)
    | PathOverflow(node: nat)
    | ArgCapacityExceeded
    | LaunchError

  /** Replaced: execv replaced the process image. Aborted: exit(1) after "red-wrap aborted". */
  datatype End = Replaced | Aborted(cause: Error)

  datatype Outcome = Outcome(effects: seq<Effect>, end: End)

  // ---------------------------------------------------------------- tokens

  function TriArgs(t: TriState, share: string, unshare: string): seq<string> {
    match t
    case Enabled => [share]
    case Disabled => [unshare]
    case Unset => []
  }

  /** The six namespace-sharing options, in the order the launcher emits them. */
  datatype ShareFlag = All | User | Cgroup | Ipc | Pid | Net

  function ShareState(m: ConfTag, f: ShareFlag): TriState {
    match f
    case All => m.shareAll
    case User => m.shareUser
    case Cgroup => m.shareCgroup
    case Ipc => m.shareIpc
    case Pid => m.sharePid
    case Net => m.shareNet
  }

  function ShareToken(f: ShareFlag): string {
    match f
    case All => "--share-all"
    case User => "--share-user"
    case Cgroup => "--share-cgroup"
    case Ipc => "--share-ipc"
    case Pid => "--share-pid"
    case Net => "--share-net"
  }

  /** The disabled-IPC token is "--unshare-pic", exactly as the launcher writes it. */
  function UnshareToken(f: ShareFlag): string {
    match f
    case All => "--unshare-all"
    case User => "--unshare-user"
    case Cgroup => "--unshare-cgroup"
    case Ipc => "--unshare-pic"
    case Pid => "--unshare-pid"
    case Net => "--unshare-net"
  }

  function FlagArgs(m: ConfTag, f: ShareFlag): seq<string> {
    TriArgs(ShareState(m, f), ShareToken(f), UnshareToken(f))
  }

  function ShareArgs(m: ConfTag): seq<string> {
    FlagArgs(m, All) + FlagArgs(m, User) + FlagArgs(m, Cgroup)
    + FlagArgs(m, Ipc) + FlagArgs(m, Pid) + FlagArgs(m, Net)
  }

  function SetenvArgs(path: string, ldpath: string): seq<string> {
    ["--setenv", "PATH", path, "--setenv", "LD_LIBRARY_PATH", ldpath]
  }

  function HostnameArgs(m: ConfTag, leaf: Node, expand: Expander): seq<string> {
    if m.hostname.Some? then ["--unshare-uts", "--hostname", expand(leaf, m.hostname.value)] else []
  }

  function ChdirArgs(m: ConfTag, leaf: Node, expand: Expander): seq<string> {
    if m.chdir.Some? then ["--chdir", expand(leaf, m.chdir.value)] else []
  }

  function DieArgs(m: ConfTag): seq<string> {
    if m.dieWithParent == Enabled then ["--die-with-parent"] else []
  }

  function SessionArgs(m: ConfTag): seq<string> {
    if m.newSession == Enabled then ["--new-session"] else []
  }

  /** The hostname entries, then the chdir entries. */
  function IdentityArgs(m: ConfTag, leaf: Node, expand: Expander): seq<string> {
    HostnameArgs(m, leaf, expand) + ChdirArgs(m, leaf, expand)
  }

  /** --die-with-parent, then --new-session. */
  function LifetimeArgs(m: ConfTag): seq<string> {
    DieArgs(m) + SessionArgs(m)
  }

  /** Everything written to argval after the walk, in order. */
  function LaunchTail(m: ConfTag, path: string, ldpath: string, leaf: Node, expand: Expander,
                      subargv: seq<string>): (r: seq<string>)
    ensures |r| >= 6 + |subargv|
    ensures r[..6] == SetenvArgs(path, ldpath) && r[|r| - |subargv|..] == subargv
  {
    SetenvArgs(path, ldpath) + IdentityArgs(m, leaf, expand) + ShareArgs(m) + LifetimeArgs(m) + subargv
  }

  // ------------------------------------------------------------- the walk

  /** What loadNode works on: the merged tags, argval so far, the two buffers, the effects so far. */
  datatype WalkState = WalkState(merged: ConfTag, args: seq<string>, ldpath: string, path: string,
                                 effects: seq<Effect>)

  /** Go: every node so far loaded. Stop: loadNode failed at node `at`. */
  datatype Walk = Go(state: WalkState) | Stop(cause: Error, at: nat, effects: seq<Effect>)

  /**
   * loadNode on node i of the chain: merge its conftag then its admin
   * conftag; at the root apply the umask; let RwrapParseNode add the node's
   * fragment (lastleaf is i == 0); append ldpath, then path.
   */
  function LoadNodeSpec(chain: seq<Node>, i: nat, st: WalkState, parse: Parser,
                        maxArgs: nat, maxVarLen: nat): (r: Walk)
    requires i < |chain|
    ensures r.Stop? ==> r.at == i && r.cause != ScanError && r.cause != LaunchError
    ensures r.Go? ==> |r.state.args| < maxArgs && |r.state.ldpath| < maxVarLen && |r.state.path| < maxVarLen
  {
    var node := chain[i];
    var merged := MergeNode(node, st.merged);
    var effects := if i == |chain| - 1 then st.effects + [SetUmask(merged)] else st.effects;
    match parse(node, i == 0)
    case None => Stop(NodeArgError(i), i, effects)
    case Some(frag) =>
      if |st.args| + |frag| >= maxArgs then Stop(ArgCapacityExceeded, i, effects)
      else if !Fits(st.ldpath, node.conftag.ldpath, maxVarLen) then Stop(LdPathOverflow(i), i, effects)
      else if !Fits(st.path, node.conftag.path, maxVarLen) then Stop(PathOverflow(i), i, effects)
      else Go(WalkState(merged, st.args + frag, JoinStep(st.ldpath, node.conftag.ldpath),
                        JoinStep(st.path, node.conftag.path), effects))
  }

  /** Concatenation of argument lists regroups freely. */
  lemma AppendAssoc(a: seq<string>, b: seq<string>, c: seq<string>)
    ensures a + b + c == a + (b + c)
  {
  }

  /** The walk from the leaf over the first k nodes, stopping at the first failing node. */
  function WalkPrefix(chain: seq<Node>, k: nat, init: WalkState, parse: Parser,
                      maxArgs: nat, maxVarLen: nat): (r: Walk)
    requires k <= |chain|
    ensures r.Stop? ==> r.at < k && r.cause != ScanError && r.cause != LaunchError
    ensures r.Go? && k > 0 ==> |r.state.args| < maxArgs
  {
    if k == 0 then Go(init)
    else match WalkPrefix(chain, k - 1, init, parse, maxArgs, maxVarLen)
      case Stop(e, at, tr) => Stop(e, at, tr)
      case Go(st) => LoadNodeSpec(chain, k - 1, st, parse, maxArgs, maxVarLen)
  }

  /** Once a node has failed, the walk stays stopped there: no later node is loaded. */
  lemma {:induction false} WalkStopPersists(chain: seq<Node>, k: nat, k': nat, init: WalkState, parse: Parser,
                                            maxArgs: nat, maxVarLen: nat)
    requires k <= k' <= |chain|
    requires WalkPrefix(chain, k, init, parse, maxArgs, maxVarLen).Stop?
    ensures WalkPrefix(chain, k', init, parse, maxArgs, maxVarLen) == WalkPrefix(chain, k, init, parse, maxArgs, maxVarLen)
  {
    if k' > k {
      WalkStopPersists(chain, k, k' - 1, init, parse, maxArgs, maxVarLen);
    }
  }

  /** The three RedPutEnv calls made for the leaf before any node is loaded. */
  function LeafEnv(leaf: Node): seq<Effect> {
    [PutEnv("LEAF_ALIAS", leaf.alias), PutEnv("LEAF_NAME", leaf.name), PutEnv("LEAF_PATH", leaf.realpath)]
  }

  /** isCgroups after the walk: some node's own conftag carries a cgroups spec. */
  predicate AnyCgroups(chain: seq<Node>)
  {
    chain != [] && (AnyCgroups(chain[..|chain| - 1]) || chain[|chain| - 1].conftag.cgroups.Some?)
  }

  lemma {:induction false} AnyCgroupsExists(chain: seq<Node>)
    ensures AnyCgroups(chain) <==> exists k :: 0 <= k < |chain| && chain[k].conftag.cgroups.Some?
  {
    if chain != [] {
      var init := chain[..|chain| - 1];
      AnyCgroupsExists(init);
      if AnyCgroups(init) {
        var k :| 0 <= k < |init| && init[k].conftag.cgroups.Some?;
        assert chain[k] == init[k];
      }
      if exists k :: 0 <= k < |chain| && chain[k].conftag.cgroups.Some? {
        var k :| 0 <= k < |chain| && chain[k].conftag.cgroups.Some?;
        if k < |init| { assert init[k] == chain[k]; }
      }
    }
  }

  lemma AnyCgroupsStep(chain: seq<Node>, i: nat)
    requires i < |chain|
    ensures AnyCgroups(chain[..i + 1]) == (AnyCgroups(chain[..i]) || chain[i].conftag.cgroups.Some?)
  {
    assert chain[..i + 1][..i] == chain[..i];
  }

  /** cgroups(node->config->conftag->cgroups, node->status->realpath), whether or not the spec is NULL. */
  function CgroupsCallOf(n: Node): Effect {
    CgroupsCall(n.conftag.cgroups, n.realpath)
  }

  /** The cgroups() calls of the second pass: one per node, from the root down to the leaf. */
  function CgroupsPass(chain: seq<Node>): seq<Effect>
  {
    if chain == [] then [] else [CgroupsCallOf(chain[|chain| - 1])] + CgroupsPass(chain[..|chain| - 1])
  }

  function InitialState(commandName: string, leaf: Node): WalkState {
    WalkState(EmptyTags, [commandName], "", "", LeafEnv(leaf))
  }

  /** redwrapMain from start to its single exit point. */
  function Run(commandName: string, bwrap: string, scan: Option<seq<Node>>, parse: Parser,
               expand: Expander, subargv: seq<string>, maxArgs: nat, maxVarLen: nat,
               execReturns: bool): (r: Outcome)
    requires scan.Some? ==> |scan.value| > 0
    ensures scan.None? ==> r.effects == []
    ensures r.end == Aborted(ScanError) <==> maxArgs >= 2 && scan.None?
    ensures r.end == Replaced ==> !execReturns && r.effects != [] && r.effects[|r.effects| - 1].Exec?
  {
    if maxArgs < 2 then Outcome([], Aborted(ArgCapacityExceeded))
    else match scan
      case None => Outcome([], Aborted(ScanError))
      case Some(chain) =>
        match WalkPrefix(chain, |chain|, InitialState(commandName, chain[0]), parse, maxArgs, maxVarLen)
        case Stop(e, _, tr) => Outcome(tr, Aborted(e))
        case Go(st) => Launch(chain, st, bwrap, expand, subargv, maxArgs, execReturns)
  }

  /**
   * What redwrapMain does once every node has loaded: the cgroups pass when
   * some node asked for it, then the rest of the arguments, then execv.
   */
  function Launch(chain: seq<Node>, st: WalkState, bwrap: string, expand: Expander, subargv: seq<string>,
                  maxArgs: nat, execReturns: bool): (r: Outcome)
    requires |chain| > 0
    ensures |r.effects| >= |st.effects| && r.effects[..|st.effects|] == st.effects
    ensures r.end == Replaced || r.end == Aborted(LaunchError) || r.end == Aborted(ArgCapacityExceeded)
    ensures r.end != Aborted(ArgCapacityExceeded) ==>
              |r.effects| > |st.effects| && r.effects[|r.effects| - 1].Exec?
    ensures r.end != Aborted(ArgCapacityExceeded) ==>
              var argv := r.effects[|r.effects| - 1].argv;
              |st.args| <= |argv| < maxArgs && argv[..|st.args|] == st.args
  {
    var effects := if AnyCgroups(chain) then st.effects + CgroupsPass(chain) else st.effects;
    var argv := st.args + LaunchTail(st.merged, st.path, st.ldpath, chain[0], expand, subargv);
    if |argv| >= maxArgs then Outcome(effects, Aborted(ArgCapacityExceeded))
    else Outcome(effects + [Exec(bwrap, argv)], if execReturns then Aborted(LaunchError) else Replaced)
  }

  lemma {:induction false} CgroupsPassLength(chain: seq<Node>)
    ensures |CgroupsPass(chain)| == |chain|
  {
    if chain != [] {
      CgroupsPassLength(chain[..|chain| - 1]);
    }
  }

  lemma {:induction false} CgroupsPassAt(chain: seq<Node>, j: nat)
    requires j < |chain|
    ensures |CgroupsPass(chain)| == |chain|
    ensures CgroupsPass(chain)[j] == CgroupsCallOf(chain[|chain| - 1 - j])
  {
    var init := chain[..|chain| - 1];
    CgroupsPassLength(chain);
    if j > 0 {
      CgroupsPassAt(init, j - 1);
      assert init[|init| - 1 - (j - 1)] == chain[|chain| - 1 - j];
    }
  }

  /** The cgroups pass calls the root first and the leaf last: entry j is the node j steps below the root. */
  lemma CgroupsPassOrder(chain: seq<Node>)
    ensures |CgroupsPass(chain)| == |chain|
    ensures forall j :: 0 <= j < |chain| ==> CgroupsPass(chain)[j] == CgroupsCallOf(chain[|chain| - 1 - j])
  {
    CgroupsPassLength(chain);
    forall j | 0 <= j < |chain|
      ensures CgroupsPass(chain)[j] == CgroupsCallOf(chain[|chain| - 1 - j])
    {
      CgroupsPassAt(chain, j);
    }
  }
}
