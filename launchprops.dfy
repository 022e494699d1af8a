/**
 * Properties of redwrapMain, stated about RedwrapSpec.Run and the walk it
 * performs: the exact order of arguments and effects, where the walk stops,
 * how the share options are encoded, and where execv can happen.
 */
module LaunchProperties {
  import opened Wrappers
  import opened RedConf
  import opened EnvPath
  import opened RedwrapSpec

  /** The fragment RwrapParseNode gave node i, or nothing if it failed. */
  function Parsed(chain: seq<Node>, i: nat, parse: Parser): seq<string>
    requires i < |chain|
  {
    var frag := parse(chain[i], i == 0);
    if frag.Some? then frag.value else []
  }

  /** What RwrapParseNode contributed for the first k nodes, from the leaf. */
  function Fragments(chain: seq<Node>, k: nat, parse: Parser): seq<string>
    requires k <= |chain|
  {
    if k == 0 then [] else Fragments(chain, k - 1, parse) + Parsed(chain, k - 1, parse)
  }

  /** The path and ldpath entries of the first k nodes' own tags, from the leaf. */
  function PathFragments(chain: seq<Node>, k: nat): seq<Option<string>>
    requires k <= |chain|
  {
    if k == 0 then [] else PathFragments(chain, k - 1) + [chain[k - 1].conftag.path]
  }

  function LdPathFragments(chain: seq<Node>, k: nat): seq<Option<string>>
    requires k <= |chain|
  {
    if k == 0 then [] else LdPathFragments(chain, k - 1) + [chain[k - 1].conftag.ldpath]
  }

  /** The state a walk starts from: nothing merged, both buffers empty. */
  predicate FreshStart(init: WalkState) {
    init.merged == EmptyTags && init.ldpath == "" && init.path == ""
  }

  lemma PathsStep(chain: seq<Node>, k: nat)
    requires k < |chain|
    ensures JoinFragments(PathFragments(chain, k + 1))
            == JoinStep(JoinFragments(PathFragments(chain, k)), chain[k].conftag.path)
    ensures JoinFragments(LdPathFragments(chain, k + 1))
            == JoinStep(JoinFragments(LdPathFragments(chain, k)), chain[k].conftag.ldpath)
  {
    var p := PathFragments(chain, k + 1);
    assert p[..|p| - 1] == PathFragments(chain, k);
    var q := LdPathFragments(chain, k + 1);
    assert q[..|q| - 1] == LdPathFragments(chain, k);
  }

  /** A node that loads extends every part of the walk state by its own contribution. */
  lemma LoadNodeGoState(chain: seq<Node>, i: nat, st: WalkState, parse: Parser, maxArgs: nat, maxVarLen: nat)
    requires i < |chain| && LoadNodeSpec(chain, i, st, parse, maxArgs, maxVarLen).Go?
    ensures var n := LoadNodeSpec(chain, i, st, parse, maxArgs, maxVarLen).state;
            && n.merged == MergeNode(chain[i], st.merged)
            && n.args == st.args + Parsed(chain, i, parse)
            && n.ldpath == JoinStep(st.ldpath, chain[i].conftag.ldpath)
            && n.path == JoinStep(st.path, chain[i].conftag.path)
            && n.effects == st.effects + (if i == |chain| - 1 then [SetUmask(MergeNode(chain[i], st.merged))] else [])
  {
  }

  /** The walk state after k loaded nodes, in terms of the previous one. */
  lemma WalkGoStep(chain: seq<Node>, k: nat, init: WalkState, parse: Parser, maxArgs: nat, maxVarLen: nat)
    requires 0 < k <= |chain|
    requires WalkPrefix(chain, k, init, parse, maxArgs, maxVarLen).Go?
    ensures WalkPrefix(chain, k - 1, init, parse, maxArgs, maxVarLen).Go?
    ensures WalkPrefix(chain, k, init, parse, maxArgs, maxVarLen)
            == LoadNodeSpec(chain, k - 1, WalkPrefix(chain, k - 1, init, parse, maxArgs, maxVarLen).state,
                            parse, maxArgs, maxVarLen)
  {
  }

  /**
   * The state of a walk over the first k nodes that has not failed: the tags
   * of those nodes merged in leaf-to-root order, the initial arguments
   * followed by each node's fragment in the same order, the ldpath and path
   * entries joined in that order, and one umask application, made when the
   * root was loaded, with every node's tags merged.
   */
  function LoadedState(chain: seq<Node>, k: nat, init: WalkState, parse: Parser): WalkState
    requires k <= |chain|
  {
    WalkState(MergeChain(chain[..k]),
              init.args + Fragments(chain, k, parse),
              JoinFragments(LdPathFragments(chain, k)),
              JoinFragments(PathFragments(chain, k)),
              init.effects + (if 0 < k == |chain| then [SetUmask(MergeChain(chain))] else []))
  }

  /** Loading one more node keeps the walk state at LoadedState. */
  lemma LoadedStep(chain: seq<Node>, k: nat, init: WalkState, ps: WalkState, parse: Parser,
                   maxArgs: nat, maxVarLen: nat)
    requires k < |chain| && ps == LoadedState(chain, k, init, parse)
    requires LoadNodeSpec(chain, k, ps, parse, maxArgs, maxVarLen).Go?
    ensures LoadNodeSpec(chain, k, ps, parse, maxArgs, maxVarLen).state == LoadedState(chain, k + 1, init, parse)
  {
    LoadNodeGoState(chain, k, ps, parse, maxArgs, maxVarLen);
    MergeChainStep(chain, k);
    AppendAssoc(init.args, Fragments(chain, k, parse), Parsed(chain, k, parse));
    PathsStep(chain, k);
    if k + 1 == |chain| {
      assert chain[..k + 1] == chain;
    }
  }

  /** Before any node is loaded, a fresh state is LoadedState. */
  lemma LoadedNothing(chain: seq<Node>, init: WalkState, parse: Parser)
    requires FreshStart(init)
    ensures init == LoadedState(chain, 0, init, parse)
  {
    assert chain[..0] == [];
  }

  /** A walk that loads node k - 1 after k - 1 loaded nodes keeps LoadedState. */
  lemma WalkGoLoaded(chain: seq<Node>, k: nat, init: WalkState, parse: Parser, maxArgs: nat, maxVarLen: nat)
    requires 0 < k <= |chain|
    requires WalkPrefix(chain, k, init, parse, maxArgs, maxVarLen).Go?
    requires WalkPrefix(chain, k - 1, init, parse, maxArgs, maxVarLen).Go?
    requires WalkPrefix(chain, k - 1, init, parse, maxArgs, maxVarLen).state == LoadedState(chain, k - 1, init, parse)
    ensures WalkPrefix(chain, k, init, parse, maxArgs, maxVarLen).state == LoadedState(chain, k, init, parse)
  {
    WalkGoStep(chain, k, init, parse, maxArgs, maxVarLen);
    LoadedStep(chain, k - 1, init, WalkPrefix(chain, k - 1, init, parse, maxArgs, maxVarLen).state, parse,
               maxArgs, maxVarLen);
  }

  /** Every walk that has not failed is in LoadedState. */
  lemma {:induction false} WalkProduces(chain: seq<Node>, k: nat, init: WalkState, parse: Parser,
                                        maxArgs: nat, maxVarLen: nat)
    requires k <= |chain| && FreshStart(init)
    requires WalkPrefix(chain, k, init, parse, maxArgs, maxVarLen).Go?
    ensures WalkPrefix(chain, k, init, parse, maxArgs, maxVarLen).state == LoadedState(chain, k, init, parse)
  {
    if k == 0 {
      LoadedNothing(chain, init, parse);
    } else {
      WalkGoStep(chain, k, init, parse, maxArgs, maxVarLen);
      WalkProduces(chain, k - 1, init, parse, maxArgs, maxVarLen);
      WalkGoLoaded(chain, k, init, parse, maxArgs, maxVarLen);
    }
  }

  /** Before the root is loaded, a walk that has not failed holds the merged tags and no new effect. */
  lemma WalkMergedBeforeRoot(chain: seq<Node>, k: nat, init: WalkState, parse: Parser,
                             maxArgs: nat, maxVarLen: nat)
    requires k < |chain| && FreshStart(init)
    requires WalkPrefix(chain, k, init, parse, maxArgs, maxVarLen).Go?
    ensures WalkPrefix(chain, k, init, parse, maxArgs, maxVarLen).state.merged == MergeChain(chain[..k])
    ensures WalkPrefix(chain, k, init, parse, maxArgs, maxVarLen).state.effects == init.effects
  {
    WalkProduces(chain, k, init, parse, maxArgs, maxVarLen);
  }

  /**
   * A walk that failed stopped at the first node whose loadNode failed: all
   * nodes before it were loaded, no node after it was, and the only effect
   * beyond the initial ones is the umask, present exactly when the failing
   * node is the root (it is applied before that node's arguments are parsed).
   */
  lemma WalkStopsAtFirstFailure(chain: seq<Node>, k: nat, init: WalkState, parse: Parser,
                                 maxArgs: nat, maxVarLen: nat)
    requires k <= |chain| && FreshStart(init)
    requires WalkPrefix(chain, k, init, parse, maxArgs, maxVarLen).Stop?
    ensures var w := WalkPrefix(chain, k, init, parse, maxArgs, maxVarLen);
            && w.at < k
            && WalkPrefix(chain, w.at, init, parse, maxArgs, maxVarLen).Go?
            && w == LoadNodeSpec(chain, w.at, WalkPrefix(chain, w.at, init, parse, maxArgs, maxVarLen).state,
                                 parse, maxArgs, maxVarLen)
            && w.effects == init.effects + (if w.at == |chain| - 1 then [SetUmask(MergeChain(chain))] else [])
  {
    WalkStopShape(chain, k, init, parse, maxArgs, maxVarLen);
    var w := WalkPrefix(chain, k, init, parse, maxArgs, maxVarLen);
    var ps := WalkPrefix(chain, w.at, init, parse, maxArgs, maxVarLen).state;
    WalkMergedBeforeRoot(chain, w.at, init, parse, maxArgs, maxVarLen);
    LoadedStop(chain, w.at, init.effects, ps, parse, maxArgs, maxVarLen);
  }

  /** A walk that failed stopped at a node whose predecessors all loaded. */
  lemma {:induction false} WalkStopShape(chain: seq<Node>, k: nat, init: WalkState, parse: Parser,
                                         maxArgs: nat, maxVarLen: nat)
    requires k <= |chain|
    requires WalkPrefix(chain, k, init, parse, maxArgs, maxVarLen).Stop?
    ensures var w := WalkPrefix(chain, k, init, parse, maxArgs, maxVarLen);
            && w.at < k
            && WalkPrefix(chain, w.at, init, parse, maxArgs, maxVarLen).Go?
            && w == LoadNodeSpec(chain, w.at, WalkPrefix(chain, w.at, init, parse, maxArgs, maxVarLen).state,
                                 parse, maxArgs, maxVarLen)
  {
    var prev := WalkPrefix(chain, k - 1, init, parse, maxArgs, maxVarLen);
    if prev.Stop? {
      WalkStopShape(chain, k - 1, init, parse, maxArgs, maxVarLen);
    } else {
      LoadNodeStopEffects(chain, k - 1, prev.state, parse, maxArgs, maxVarLen);
    }
  }

  /** The node that ends a walk after k loaded nodes adds only the umask, and only at the root. */
  lemma LoadedStop(chain: seq<Node>, k: nat, effects: seq<Effect>, ps: WalkState, parse: Parser,
                   maxArgs: nat, maxVarLen: nat)
    requires k < |chain| && ps.merged == MergeChain(chain[..k]) && ps.effects == effects
    requires LoadNodeSpec(chain, k, ps, parse, maxArgs, maxVarLen).Stop?
    ensures var w := LoadNodeSpec(chain, k, ps, parse, maxArgs, maxVarLen);
            && w.at == k
            && w.effects == effects + (if k == |chain| - 1 then [SetUmask(MergeChain(chain))] else [])
  {
    var w := LoadNodeSpec(chain, k, ps, parse, maxArgs, maxVarLen);
    LoadNodeStopEffects(chain, k, ps, parse, maxArgs, maxVarLen);
    if k == |chain| - 1 {
      RootMerge(chain);
      assert w.effects == effects + [SetUmask(MergeChain(chain))];
    }
  }

  /** A failing node adds only the umask, and only when it is the root. */
  lemma LoadNodeStopEffects(chain: seq<Node>, i: nat, ps: WalkState, parse: Parser, maxArgs: nat, maxVarLen: nat)
    requires i < |chain| && LoadNodeSpec(chain, i, ps, parse, maxArgs, maxVarLen).Stop?
    ensures LoadNodeSpec(chain, i, ps, parse, maxArgs, maxVarLen).at == i
    ensures LoadNodeSpec(chain, i, ps, parse, maxArgs, maxVarLen).effects
            == ps.effects + (if i == |chain| - 1 then [SetUmask(MergeNode(chain[i], ps.merged))] else [])
  {
  }

  lemma RootMerge(chain: seq<Node>)
    requires |chain| > 0
    ensures MergeNode(chain[|chain| - 1], MergeChain(chain[..|chain| - 1])) == MergeChain(chain)
  {
  }

  /** The full argument vector redwrapMain hands to execv when every node loads. */
  function ExpectedArgv(commandName: string, chain: seq<Node>, parse: Parser, expand: Expander,
                        subargv: seq<string>): seq<string>
    requires |chain| > 0
  {
    [commandName] + Fragments(chain, |chain|, parse)
    + LaunchTail(MergeChain(chain), JoinFragments(PathFragments(chain, |chain|)), JoinFragments(LdPathFragments(chain, |chain|)),
                 chain[0], expand, subargv)
  }

  /**
   * When every node loads, redwrapMain: puts the leaf's alias, name and path
   * into the environment; applies the umask once, with every node's tags
   * merged; runs the cgroups pass (root first) only if some node asks for
   * cgroups; and then, if the arguments and their NULL fit in argval, execs
   * the launcher with command name, node fragments, PATH, LD_LIBRARY_PATH,
   * hostname, chdir, share options, lifetime options and the user command,
   * in that order. If they do not fit it aborts, and nothing is executed.
   */
  lemma LaunchSequence(commandName: string, bwrap: string, chain: seq<Node>, parse: Parser,
                       expand: Expander, subargv: seq<string>, maxArgs: nat, maxVarLen: nat,
                       execReturns: bool)
    requires |chain| > 0 && maxArgs >= 2
    requires WalkPrefix(chain, |chain|, InitialState(commandName, chain[0]), parse, maxArgs, maxVarLen).Go?
    ensures var argv := ExpectedArgv(commandName, chain, parse, expand, subargv);
            var r := Run(commandName, bwrap, Some(chain), parse, expand, subargv, maxArgs, maxVarLen, execReturns);
            && r.effects == LeafEnv(chain[0]) + [SetUmask(MergeChain(chain))]
                            + (if AnyCgroups(chain) then CgroupsPass(chain) else [])
                            + (if |argv| < maxArgs then [Exec(bwrap, argv)] else [])
            && r.end == if |argv| >= maxArgs then Aborted(ArgCapacityExceeded)
                        else if execReturns then Aborted(LaunchError) else Replaced
  {
    var init := InitialState(commandName, chain[0]);
    var st := WalkPrefix(chain, |chain|, init, parse, maxArgs, maxVarLen).state;
    WalkProduces(chain, |chain|, init, parse, maxArgs, maxVarLen);
    assert chain[..|chain|] == chain;
    assert st.merged == MergeChain(chain);
    var argv := st.args + LaunchTail(st.merged, st.path, st.ldpath, chain[0], expand, subargv);
    assert argv == ExpectedArgv(commandName, chain, parse, expand, subargv);
    assert st.effects == LeafEnv(chain[0]) + [SetUmask(MergeChain(chain))];
    assert Run(commandName, bwrap, Some(chain), parse, expand, subargv, maxArgs, maxVarLen, execReturns)
        == Launch(chain, st, bwrap, expand, subargv, maxArgs, execReturns);
  }

  /** argval[0] is the command name and the user command closes the vector, verbatim. */
  lemma ArgvEnds(commandName: string, chain: seq<Node>, parse: Parser, expand: Expander, subargv: seq<string>)
    requires |chain| > 0
    ensures var argv := ExpectedArgv(commandName, chain, parse, expand, subargv);
            && argv[0] == commandName
            && |argv| >= 7 + |subargv|
            && argv[|argv| - |subargv|..] == subargv
  {
  }

  /**
   * The entries after the node fragments come in five consecutive groups:
   * the two --setenv pairs, the hostname and chdir entries, the share
   * options, the die-with-parent and new-session options, the user command.
   */
  lemma LaunchTailLayout(m: ConfTag, path: string, ldpath: string, leaf: Node, expand: Expander,
                         subargv: seq<string>)
    ensures var t := LaunchTail(m, path, ldpath, leaf, expand, subargv);
            var i := 6 + |IdentityArgs(m, leaf, expand)|;
            var s := i + |ShareArgs(m)|;
            var u := s + |LifetimeArgs(m)|;
            && |t| == u + |subargv|
            && t[..6] == ["--setenv", "PATH", path, "--setenv", "LD_LIBRARY_PATH", ldpath]
            && t[6..i] == IdentityArgs(m, leaf, expand)
            && t[i..s] == ShareArgs(m)
            && t[s..u] == LifetimeArgs(m)
            && t[u..] == subargv
  {
    ConcatSlices(SetenvArgs(path, ldpath), IdentityArgs(m, leaf, expand), ShareArgs(m), LifetimeArgs(m), subargv);
  }

  /** Each part of a five-part concatenation is the slice at its offset. */
  lemma ConcatSlices(a: seq<string>, b: seq<string>, c: seq<string>, d: seq<string>, e: seq<string>)
    ensures var t := a + b + c + d + e;
            var i := |a| + |b|;
            var s := i + |c|;
            var u := s + |d|;
            && |t| == u + |e|
            && t[..|a|] == a && t[|a|..i] == b && t[i..s] == c && t[s..u] == d && t[u..] == e
  {
    var t := a + b + c + d + e;
    assert t[..|a|] == a;
    assert t[|a|..|a| + |b|] == b;
    assert t[|a| + |b|..|a| + |b| + |c|] == c;
    assert t[|a| + |b| + |c|..|a| + |b| + |c| + |d|] == d;
    assert t[|a| + |b| + |c| + |d|..] == e;
  }

  /**
   * A merged hostname gives exactly three entries, --unshare-uts, --hostname
   * and the expanded name; a merged chdir exactly two, --chdir and the
   * expanded directory, after them.
   */
  lemma IdentityArgsShape(m: ConfTag, leaf: Node, expand: Expander)
    ensures var id := IdentityArgs(m, leaf, expand);
            var h := if m.hostname.Some? then 3 else 0;
            && |id| == h + (if m.chdir.Some? then 2 else 0)
            && (m.hostname.Some? ==> id[..3] == ["--unshare-uts", "--hostname", expand(leaf, m.hostname.value)])
            && (m.chdir.Some? ==> id[h..] == ["--chdir", expand(leaf, m.chdir.value)])
  {
  }

  /** --die-with-parent and --new-session each appear exactly when enabled, the first before the second. */
  lemma LifetimeArgsShape(m: ConfTag)
    ensures var l := LifetimeArgs(m);
            && |l| <= 2
            && ("--die-with-parent" in l <==> m.dieWithParent == Enabled)
            && ("--new-session" in l <==> m.newSession == Enabled)
            && (|l| == 2 ==> l == ["--die-with-parent", "--new-session"])
  {
  }

  /** The twelve share tokens are pairwise different. */
  lemma TokensDistinct()
    ensures forall f, g :: ShareToken(f) == ShareToken(g) ==> f == g
    ensures forall f, g :: UnshareToken(f) == UnshareToken(g) ==> f == g
    ensures forall f, g :: ShareToken(f) != UnshareToken(g)
  {
  }

  /** Option g's entry mentions option f's tokens only when f is g. */
  lemma TokenInFlagArgs(m: ConfTag, f: ShareFlag, g: ShareFlag)
    ensures ShareToken(f) in FlagArgs(m, g) <==> f == g && ShareState(m, f) == Enabled
    ensures UnshareToken(f) in FlagArgs(m, g) <==> f == g && ShareState(m, f) == Disabled
  {
    TokensDistinct();
  }

  /**
   * The share options carry option f's share token exactly when f is
   * enabled in the merged tags, its unshare token exactly when f is
   * disabled, never both, and neither when f is unset.
   */
  lemma ShareFlagTokens(m: ConfTag, f: ShareFlag)
    ensures ShareToken(f) in ShareArgs(m) <==> ShareState(m, f) == Enabled
    ensures UnshareToken(f) in ShareArgs(m) <==> ShareState(m, f) == Disabled
    ensures !(ShareToken(f) in ShareArgs(m) && UnshareToken(f) in ShareArgs(m))
  {
    TokenInFlagArgs(m, f, All);
    TokenInFlagArgs(m, f, User);
    TokenInFlagArgs(m, f, Cgroup);
    TokenInFlagArgs(m, f, Ipc);
    TokenInFlagArgs(m, f, Pid);
    TokenInFlagArgs(m, f, Net);
  }

  /** One entry per set option and none per unset one, so none at all when every option is unset. */
  lemma ShareArgsBounds(m: ConfTag)
    ensures forall f :: |FlagArgs(m, f)| == if ShareState(m, f) == Unset then 0 else 1
    ensures |ShareArgs(m)| <= 6
    ensures ShareArgs(m) == [] <==> forall f :: ShareState(m, f) == Unset
  {
    if ShareArgs(m) == [] {
      forall f ensures ShareState(m, f) == Unset {
        ShareFlagTokens(m, f);
      }
    }
  }

  /** No effect in `effects` is an execv. */
  predicate NoExec(effects: seq<Effect>) {
    forall j :: 0 <= j < |effects| ==> !effects[j].Exec?
  }

  lemma CgroupsPassNoExec(chain: seq<Node>)
    ensures NoExec(CgroupsPass(chain))
  {
    CgroupsPassOrder(chain);
  }

  /**
   * When a node fails to load, redwrapMain ends with that node's error and
   * executes nothing; the only effects are the leaf's environment and, if
   * the failing node is the root, the umask.
   */
  lemma RunNodeFailure(commandName: string, bwrap: string, chain: seq<Node>, parse: Parser,
                       expand: Expander, subargv: seq<string>, maxArgs: nat, maxVarLen: nat,
                       execReturns: bool)
    requires |chain| > 0 && maxArgs >= 2
    requires WalkPrefix(chain, |chain|, InitialState(commandName, chain[0]), parse, maxArgs, maxVarLen).Stop?
    ensures var w := WalkPrefix(chain, |chain|, InitialState(commandName, chain[0]), parse, maxArgs, maxVarLen);
            var r := Run(commandName, bwrap, Some(chain), parse, expand, subargv, maxArgs, maxVarLen, execReturns);
            && r.end == Aborted(w.cause)
            && (w.cause == NodeArgError(w.at) || w.cause == ArgCapacityExceeded
                || w.cause == LdPathOverflow(w.at) || w.cause == PathOverflow(w.at))
            && r.effects == LeafEnv(chain[0]) + (if w.at == |chain| - 1 then [SetUmask(MergeChain(chain))] else [])
  {
    var init := InitialState(commandName, chain[0]);
    WalkStopsAtFirstFailure(chain, |chain|, init, parse, maxArgs, maxVarLen);
    var w := WalkPrefix(chain, |chain|, init, parse, maxArgs, maxVarLen);
    LoadNodeCauses(chain, w.at, WalkPrefix(chain, w.at, init, parse, maxArgs, maxVarLen).state, parse, maxArgs, maxVarLen);
  }

  /** A node fails for one of four reasons, each naming the node except the argument-capacity one. */
  lemma LoadNodeCauses(chain: seq<Node>, i: nat, st: WalkState, parse: Parser, maxArgs: nat, maxVarLen: nat)
    requires i < |chain| && LoadNodeSpec(chain, i, st, parse, maxArgs, maxVarLen).Stop?
    ensures var w := LoadNodeSpec(chain, i, st, parse, maxArgs, maxVarLen);
            && w.at == i
            && (w.cause == NodeArgError(i) <==> parse(chain[i], i == 0).None?)
            && (w.cause == NodeArgError(i) || w.cause == ArgCapacityExceeded
                || w.cause == LdPathOverflow(i) || w.cause == PathOverflow(i))
  {
  }

  /**
   * Whatever the inputs: nothing happens before the node scan succeeds; once
   * it has, the first three effects are the leaf's LEAF_ALIAS, LEAF_NAME and
   * LEAF_PATH; execv is called at most once, as the very last effect, and
   * exactly when the run ends by execv (replaced, or logging its failure).
   */
  lemma RunEffectsOrder(commandName: string, bwrap: string, scan: Option<seq<Node>>, parse: Parser,
                        expand: Expander, subargv: seq<string>, maxArgs: nat, maxVarLen: nat,
                        execReturns: bool)
    requires scan.Some? ==> |scan.value| > 0
    ensures var r := Run(commandName, bwrap, scan, parse, expand, subargv, maxArgs, maxVarLen, execReturns);
            && (scan.None? ==> r.effects == [])
            && (r.effects != [] ==> scan.Some? && |r.effects| >= 3 && r.effects[..3] == LeafEnv(scan.value[0]))
            && (forall j :: 0 <= j < |r.effects| - 1 ==> !r.effects[j].Exec?)
            && ((r.end == Replaced || r.end == Aborted(LaunchError))
                <==> (r.effects != [] && r.effects[|r.effects| - 1].Exec?))
  {
    if maxArgs >= 2 && scan.Some? {
      var chain := scan.value;
      var w := WalkPrefix(chain, |chain|, InitialState(commandName, chain[0]), parse, maxArgs, maxVarLen);
      if w.Stop? {
        RunNodeFailure(commandName, bwrap, chain, parse, expand, subargv, maxArgs, maxVarLen, execReturns);
      } else {
        LaunchEffectsOrder(commandName, bwrap, chain, parse, expand, subargv, maxArgs, maxVarLen, execReturns);
      }
    }
  }

  lemma LaunchEffectsOrder(commandName: string, bwrap: string, chain: seq<Node>, parse: Parser,
                           expand: Expander, subargv: seq<string>, maxArgs: nat, maxVarLen: nat,
                           execReturns: bool)
    requires |chain| > 0 && maxArgs >= 2
    requires WalkPrefix(chain, |chain|, InitialState(commandName, chain[0]), parse, maxArgs, maxVarLen).Go?
    ensures var r := Run(commandName, bwrap, Some(chain), parse, expand, subargv, maxArgs, maxVarLen, execReturns);
            && |r.effects| >= 4 && r.effects[..3] == LeafEnv(chain[0])
            && (forall j :: 0 <= j < |r.effects| - 1 ==> !r.effects[j].Exec?)
            && ((r.end == Replaced || r.end == Aborted(LaunchError)) <==> r.effects[|r.effects| - 1].Exec?)
  {
    LaunchSequence(commandName, bwrap, chain, parse, expand, subargv, maxArgs, maxVarLen, execReturns);
    var argv := ExpectedArgv(commandName, chain, parse, expand, subargv);
    var r := Run(commandName, bwrap, Some(chain), parse, expand, subargv, maxArgs, maxVarLen, execReturns);
    var before := LaunchPrefix(chain);
    var exec := if |argv| < maxArgs then [Exec(bwrap, argv)] else [];
    assert r.effects == before + exec;
    assert (r.end == Replaced || r.end == Aborted(LaunchError)) <==> exec != [];
    LaunchPrefixNoExec(chain);
    ExecLast(before, exec);
  }

  /** The effects of a run whose nodes all load, up to the execv. */
  function LaunchPrefix(chain: seq<Node>): seq<Effect>
    requires |chain| > 0
  {
    LeafEnv(chain[0]) + [SetUmask(MergeChain(chain))] + (if AnyCgroups(chain) then CgroupsPass(chain) else [])
  }

  lemma LaunchPrefixNoExec(chain: seq<Node>)
    requires |chain| > 0
    ensures |LaunchPrefix(chain)| >= 4 && LaunchPrefix(chain)[..3] == LeafEnv(chain[0]) && NoExec(LaunchPrefix(chain))
  {
    var cg := if AnyCgroups(chain) then CgroupsPass(chain) else [];
    CgroupsPassNoExec(chain);
    assert NoExec(cg);
    PrefixNoExec(LeafEnv(chain[0]), SetUmask(MergeChain(chain)), cg);
  }

  lemma PrefixNoExec(leaf: seq<Effect>, umask: Effect, cg: seq<Effect>)
    requires |leaf| == 3 && NoExec(leaf) && !umask.Exec? && NoExec(cg)
    ensures var before := leaf + [umask] + cg;
            |before| >= 4 && before[..3] == leaf && NoExec(before)
  {
    var before := leaf + [umask] + cg;
    forall j | 0 <= j < |before| ensures !before[j].Exec? {
      if j >= 4 {
        assert before[j] == cg[j - 4];
      }
    }
    assert before[..3] == leaf;
  }

  /** A trace free of execv followed by at most one execv has it last, if anywhere. */
  lemma ExecLast(before: seq<Effect>, exec: seq<Effect>)
    requires NoExec(before) && |before| >= 4
    requires exec == [] || (|exec| == 1 && exec[0].Exec?)
    ensures var t := before + exec;
            && |t| >= 4 && t[..3] == before[..3]
            && (forall j :: 0 <= j < |t| - 1 ==> !t[j].Exec?)
            && (t[|t| - 1].Exec? <==> exec != [])
  {
    var t := before + exec;
    assert t[..3] == before[..3];
  }

  /** A leaf with network sharing disabled and nothing else set, and no admin conftag. */
  const ExampleTags := EmptyTags.(shareNet := Disabled)
  const ExampleLeaf := Node("leaf", "leaf-node", "/nodes/leaf", ExampleTags, None)

  /**
   * A chain of that one node, whose RwrapParseNode adds nothing: the
   * launcher is executed, after the leaf's environment and the umask, as
   * `cmd --setenv PATH "" --setenv LD_LIBRARY_PATH "" --unshare-net /bin/true`.
   */
  lemma SingleNodeExample(bwrap: string, parse: Parser, expand: Expander, maxArgs: nat, maxVarLen: nat)
    requires parse(ExampleLeaf, true) == Some([])
    requires maxArgs >= 10 && maxVarLen >= 1
    ensures Run("cmd", bwrap, Some([ExampleLeaf]), parse, expand, ["/bin/true"], maxArgs, maxVarLen, false)
            == Outcome(LeafEnv(ExampleLeaf) + [SetUmask(ExampleTags),
                       Exec(bwrap, ["cmd", "--setenv", "PATH", "", "--setenv", "LD_LIBRARY_PATH", "",
                                    "--unshare-net", "/bin/true"])],
                       Replaced)
  {
    var chain := [ExampleLeaf];
    ExampleMerge();
    var init := InitialState("cmd", ExampleLeaf);
    assert WalkPrefix(chain, 0, init, parse, maxArgs, maxVarLen) == Go(init);
    assert WalkPrefix(chain, 1, init, parse, maxArgs, maxVarLen).Go?;
    LaunchSequence("cmd", bwrap, chain, parse, expand, ["/bin/true"], maxArgs, maxVarLen, false);
    ExampleArgv(parse, expand);
    var argv := ExpectedArgv("cmd", chain, parse, expand, ["/bin/true"]);
    var r := Run("cmd", bwrap, Some(chain), parse, expand, ["/bin/true"], maxArgs, maxVarLen, false);
    assert r.effects == LeafEnv(ExampleLeaf) + [SetUmask(ExampleTags)] + [] + [Exec(bwrap, argv)];
    assert [SetUmask(ExampleTags)] + [] + [Exec(bwrap, argv)] == [SetUmask(ExampleTags), Exec(bwrap, argv)];
  }

  lemma ExampleMerge()
    ensures MergeChain([ExampleLeaf]) == ExampleTags
    ensures !AnyCgroups([ExampleLeaf])
  {
    var chain := [ExampleLeaf];
    assert MergeNode(ExampleLeaf, EmptyTags) == ExampleTags;
    MergeChainStep(chain, 0);
    assert chain[..0] == [] && chain[..1] == chain;
  }

  lemma ExampleArgv(parse: Parser, expand: Expander)
    requires parse(ExampleLeaf, true) == Some([])
    ensures ExpectedArgv("cmd", [ExampleLeaf], parse, expand, ["/bin/true"])
            == ["cmd", "--setenv", "PATH", "", "--setenv", "LD_LIBRARY_PATH", "", "--unshare-net", "/bin/true"]
  {
    ExampleMerge();
    ExampleFragments(parse);
    var tail := LaunchTail(ExampleTags, "", "", ExampleLeaf, expand, ["/bin/true"]);
    ExampleTail(expand);
    assert ExpectedArgv("cmd", [ExampleLeaf], parse, expand, ["/bin/true"]) == ["cmd"] + tail;
  }

  lemma ExampleFragments(parse: Parser)
    requires parse(ExampleLeaf, true) == Some([])
    ensures Fragments([ExampleLeaf], 1, parse) == []
    ensures JoinFragments(PathFragments([ExampleLeaf], 1)) == ""
    ensures JoinFragments(LdPathFragments([ExampleLeaf], 1)) == ""
  {
    var chain := [ExampleLeaf];
    assert Fragments(chain, 1, parse) == [];
    assert PathFragments(chain, 1) == [None] && LdPathFragments(chain, 1) == [None];
    var none: seq<Option<string>> := [None];
    assert JoinFragments(none) == "" by {
      assert none[..0] == [];
    }
  }

  lemma ExampleTail(expand: Expander)
    ensures LaunchTail(ExampleTags, "", "", ExampleLeaf, expand, ["/bin/true"])
            == ["--setenv", "PATH", "", "--setenv", "LD_LIBRARY_PATH", "", "--unshare-net", "/bin/true"]
  {
    assert ShareArgs(ExampleTags) == ["--unshare-net"];
    assert IdentityArgs(ExampleTags, ExampleLeaf, expand) == [] && LifetimeArgs(ExampleTags) == [];
  }

  /** Appending to a trace free of execv: every execv of the result comes from the appended part. */
  lemma ExecsFromTail(before: seq<Effect>, exec: seq<Effect>)
    requires NoExec(before)
    ensures forall e :: e in before + exec && e.Exec? ==> e in exec
  {
    forall e | e in before + exec && e.Exec? ensures e in exec {
      var j :| 0 <= j < |before + exec| && (before + exec)[j] == e;
      if j >= |before| {
        assert exec[j - |before|] == e;
      }
    }
  }

  /**
   * Every argument vector handed to execv fits in argval together with its
   * NULL terminator: a run whose arguments would not fit ends with
   * ArgCapacityExceeded instead.
   */
  lemma ExecArgvFits(commandName: string, bwrap: string, scan: Option<seq<Node>>, parse: Parser,
                     expand: Expander, subargv: seq<string>, maxArgs: nat, maxVarLen: nat,
                     execReturns: bool)
    requires scan.Some? ==> |scan.value| > 0
    ensures var r := Run(commandName, bwrap, scan, parse, expand, subargv, maxArgs, maxVarLen, execReturns);
            forall e :: e in r.effects && e.Exec? ==> |e.argv| < maxArgs
  {
    if maxArgs >= 2 && scan.Some? {
      var chain := scan.value;
      var w := WalkPrefix(chain, |chain|, InitialState(commandName, chain[0]), parse, maxArgs, maxVarLen);
      if w.Stop? {
        RunNodeFailure(commandName, bwrap, chain, parse, expand, subargv, maxArgs, maxVarLen, execReturns);
        var leaf := LeafEnv(chain[0]);
        var umask := if w.at == |chain| - 1 then [SetUmask(MergeChain(chain))] else [];
        assert NoExec(leaf);
        ExecsFromTail(leaf, umask);
      } else {
        LaunchExecArgvFits(commandName, bwrap, chain, parse, expand, subargv, maxArgs, maxVarLen, execReturns);
      }
    }
  }

  lemma LaunchExecArgvFits(commandName: string, bwrap: string, chain: seq<Node>, parse: Parser,
                           expand: Expander, subargv: seq<string>, maxArgs: nat, maxVarLen: nat,
                           execReturns: bool)
    requires |chain| > 0 && maxArgs >= 2
    requires WalkPrefix(chain, |chain|, InitialState(commandName, chain[0]), parse, maxArgs, maxVarLen).Go?
    ensures var r := Run(commandName, bwrap, Some(chain), parse, expand, subargv, maxArgs, maxVarLen, execReturns);
            forall e :: e in r.effects && e.Exec? ==> |e.argv| < maxArgs
  {
    LaunchSequence(commandName, bwrap, chain, parse, expand, subargv, maxArgs, maxVarLen, execReturns);
    var argv := ExpectedArgv(commandName, chain, parse, expand, subargv);
    var r := Run(commandName, bwrap, Some(chain), parse, expand, subargv, maxArgs, maxVarLen, execReturns);
    var before := LaunchPrefix(chain);
    var exec := if |argv| < maxArgs then [Exec(bwrap, argv)] else [];
    assert r.effects == before + exec;
    LaunchPrefixNoExec(chain);
    ExecsFromTail(before, exec);
  }
}
