/**
 * loadNode and redwrapMain as imperative code over the argument vector and
 * the two path buffers, each proved to do what RedwrapSpec says.
 */
module RedwrapMain {
  import opened Wrappers
  import opened RedConf
  import opened EnvPath
  import opened ArgVec
  import opened RedwrapSpec

  /**
   * loadNode: merges the node's tags into `merged`, applies the umask when
   * the node has no ancestor, lets RwrapParseNode write the node's fragment,
   * then appends the node's ldpath and path. The first failure is returned.
   */
  method LoadNode(chain: seq<Node>, i: nat, merged: ConfTag, effects: seq<Effect>, parse: Parser,
                  args: ArgVector, ldpath: EnvBuffer, path: EnvBuffer)
    returns (merged': ConfTag, effects': seq<Effect>, err: Option<Error>)
    requires i < |chain|
    requires args.Valid() && !args.overflowed && ldpath.Valid() && path.Valid()
    requires ldpath != path && ldpath.data != path.data
    requires ldpath.data.Length == path.data.Length
    modifies args, args.argval, ldpath, ldpath.data, path, path.data
    ensures args.Valid() && ldpath.Valid() && path.Valid()
    ensures var w := LoadNodeSpec(chain, i,
                       WalkState(merged, old(args.Requested), old(ldpath.Contents()), old(path.Contents()), effects),
                       parse, args.argval.Length, path.data.Length);
            match w
            case Go(st) =>
              && err.None? && !args.overflowed
              && st == WalkState(merged', args.Requested, ldpath.Contents(), path.Contents(), effects')
            case Stop(e, _, tr) => err == Some(e) && effects' == tr
  {
    var node := chain[i];
    merged' := CopyConfTags(node.conftag, merged);
    if node.confadmin.Some? && node.confadmin.value.conftag.Some? {
      merged' := CopyConfTags(node.confadmin.value.conftag.value, merged');
    }
    effects' := effects;
    if i == |chain| - 1 {
      // the node without an ancestor: RedSetUmask
      effects' := effects' + [SetUmask(merged')];
    }
    var frag := parse(node, i == 0);
    if frag.None? {
      return merged', effects', Some(NodeArgError(i));
    }
    args.PushAll(frag.value);
    if args.overflowed {
      return merged', effects', Some(ArgCapacityExceeded);
    }
    var ok := ldpath.Append(node.conftag.ldpath);
    if !ok {
      return merged', effects', Some(LdPathOverflow(i));
    }
    ok := path.Append(node.conftag.path);
    if !ok {
      return merged', effects', Some(PathOverflow(i));
    }
    err := None;
  }

  /**
   * The cgroups pass: from the root node down the child links to the leaf,
   * one cgroups() call per node.
   */
  method ApplyCgroups(chain: seq<Node>) returns (calls: seq<Effect>)
    requires |chain| > 0
    ensures |calls| == |chain|
    ensures forall j :: 0 <= j < |chain| ==> calls[j] == CgroupsCallOf(chain[|chain| - 1 - j])
  {
    calls := [];
    var node: int := |chain| - 1;  // rootNode
    while node >= 0
      invariant -1 <= node < |chain|
      invariant |calls| == |chain| - 1 - node
      invariant forall j :: 0 <= j < |calls| ==> calls[j] == CgroupsCallOf(chain[|chain| - 1 - j])
    {
      calls := calls + [CgroupsCallOf(chain[node])];
      node := node - 1;  // node->child
    }
  }

  /** One share option: "--share-X" when enabled, "--unshare-X" when disabled, nothing when unset. */
  method PushFlag(args: ArgVector, m: ConfTag, f: ShareFlag)
    requires args.Valid()
    modifies args, args.argval
    ensures args.Valid()
    ensures args.Requested == old(args.Requested) + FlagArgs(m, f)
  {
    var t := ShareState(m, f);
    if t == Enabled {
      args.Push(ShareToken(f));
    } else if t == Disabled {
      args.Push(UnshareToken(f));
    }
  }

  /** The six share options, in the order all, user, cgroup, ipc, pid, net. */
  method PushShares(args: ArgVector, m: ConfTag)
    requires args.Valid()
    modifies args, args.argval
    ensures args.Valid()
    ensures args.Requested == old(args.Requested) + ShareArgs(m)
  {
    ghost var base := args.Requested;
    PushFlag(args, m, All);
    PushFlag(args, m, User);
    AppendAssoc(base, FlagArgs(m, All), FlagArgs(m, User));
    ghost var done := FlagArgs(m, All) + FlagArgs(m, User);
    PushFlag(args, m, Cgroup);
    AppendAssoc(base, done, FlagArgs(m, Cgroup));
    done := done + FlagArgs(m, Cgroup);
    PushFlag(args, m, Ipc);
    AppendAssoc(base, done, FlagArgs(m, Ipc));
    done := done + FlagArgs(m, Ipc);
    PushFlag(args, m, Pid);
    AppendAssoc(base, done, FlagArgs(m, Pid));
    done := done + FlagArgs(m, Pid);
    PushFlag(args, m, Net);
    AppendAssoc(base, done, FlagArgs(m, Net));
  }

  /** The hostname entries (three) when a hostname was merged, then the chdir entries (two). */
  method PushIdentity(args: ArgVector, m: ConfTag, leaf: Node, expand: Expander)
    requires args.Valid()
    modifies args, args.argval
    ensures args.Valid()
    ensures args.Requested == old(args.Requested) + IdentityArgs(m, leaf, expand)
  {
    ghost var base := args.Requested;
    if m.hostname.Some? {
      args.PushAll(["--unshare-uts", "--hostname", expand(leaf, m.hostname.value)]);
    }
    if m.chdir.Some? {
      args.PushAll(["--chdir", expand(leaf, m.chdir.value)]);
    }
    AppendAssoc(base, HostnameArgs(m, leaf, expand), ChdirArgs(m, leaf, expand));
  }

  /** --die-with-parent and --new-session, each only when enabled. */
  method PushSessionFlags(args: ArgVector, m: ConfTag)
    requires args.Valid()
    modifies args, args.argval
    ensures args.Valid()
    ensures args.Requested == old(args.Requested) + LifetimeArgs(m)
  {
    ghost var base := args.Requested;
    if m.dieWithParent == Enabled {
      args.Push("--die-with-parent");
    }
    if m.newSession == Enabled {
      args.Push("--new-session");
    }
    AppendAssoc(base, DieArgs(m), SessionArgs(m));
  }

  /**
   * Writes everything that follows the node fragments: the two --setenv
   * pairs, the hostname and chdir entries, the six share options, the
   * die-with-parent and new-session options, then the user command.
   */
  method BuildLaunchArgs(args: ArgVector, merged: ConfTag, path: string, ldpath: string, leaf: Node,
                         expand: Expander, subargv: seq<string>)
    requires args.Valid()
    modifies args, args.argval
    ensures args.Valid()
    ensures args.Requested == old(args.Requested) + LaunchTail(merged, path, ldpath, leaf, expand, subargv)
  {
    ghost var base := args.Requested;
    ghost var p1 := SetenvArgs(path, ldpath);
    ghost var p2 := IdentityArgs(merged, leaf, expand);
    ghost var p3 := ShareArgs(merged);
    ghost var p4 := LifetimeArgs(merged);
    args.PushAll(["--setenv", "PATH", path, "--setenv", "LD_LIBRARY_PATH", ldpath]);
    PushIdentity(args, merged, leaf, expand);
    AppendAssoc(base, p1, p2);
    PushShares(args, merged);
    AppendAssoc(base, p1 + p2, p3);
    PushSessionFlags(args, merged);
    AppendAssoc(base, p1 + p2 + p3, p4);
    args.PushAll(subargv);
    AppendAssoc(base, p1 + p2 + p3 + p4, subargv);
  }

  /**
   * The first pass of redwrapMain: loadNode on every node, following the
   * ancestor links from the leaf (redtree, the only node with lastleaf set)
   * to the root, stopping at the first failure; it also notes whether any
   * node's own conftag asks for cgroups.
   */
  method WalkFamily(chain: seq<Node>, parse: Parser, effects: seq<Effect>,
                    args: ArgVector, ldpath: EnvBuffer, path: EnvBuffer)
    returns (merged: ConfTag, effects': seq<Effect>, err: Option<Error>, isCgroups: bool)
    requires args.Valid() && !args.overflowed && ldpath.Valid() && path.Valid()
    requires ldpath != path && ldpath.data != path.data
    requires ldpath.data.Length == path.data.Length
    modifies args, args.argval, ldpath, ldpath.data, path, path.data
    ensures args.Valid() && ldpath.Valid() && path.Valid()
    ensures err.None? ==> isCgroups == AnyCgroups(chain)
    ensures var w := WalkPrefix(chain, |chain|,
                       WalkState(EmptyTags, old(args.Requested), old(ldpath.Contents()), old(path.Contents()), effects),
                       parse, args.argval.Length, path.data.Length);
            match w
            case Go(st) =>
              && err.None? && !args.overflowed
              && st == WalkState(merged, args.Requested, ldpath.Contents(), path.Contents(), effects')
            case Stop(e, _, tr) => err == Some(e) && effects' == tr
  {
    ghost var init := WalkState(EmptyTags, args.Requested, ldpath.Contents(), path.Contents(), effects);
    ghost var maxArgs, maxVarLen := args.argval.Length, path.data.Length;
    merged, effects', err, isCgroups := EmptyTags, effects, None, false;
    var i := 0;
    while i < |chain|
      invariant 0 <= i <= |chain|
      invariant args.Valid() && !args.overflowed && ldpath.Valid() && path.Valid()
      invariant args.argval.Length == maxArgs && path.data.Length == maxVarLen && ldpath.data.Length == maxVarLen
      invariant WalkPrefix(chain, i, init, parse, maxArgs, maxVarLen)
                == Go(WalkState(merged, args.Requested, ldpath.Contents(), path.Contents(), effects'))
      invariant err.None?
      invariant isCgroups == AnyCgroups(chain[..i])
    {
      ghost var st := WalkState(merged, args.Requested, ldpath.Contents(), path.Contents(), effects');
      assert WalkPrefix(chain, i + 1, init, parse, maxArgs, maxVarLen)
          == LoadNodeSpec(chain, i, st, parse, maxArgs, maxVarLen);
      merged, effects', err := LoadNode(chain, i, merged, effects', parse, args, ldpath, path);
      if err.Some? {
        WalkStopPersists(chain, i + 1, |chain|, init, parse, maxArgs, maxVarLen);
        return;
      }
      AnyCgroupsStep(chain, i);
      if chain[i].conftag.cgroups.Some? {
        isCgroups := true;
      }
      i := i + 1;
    }
    assert chain[..i] == chain;
  }

  /**
   * redwrapMain: argval[0] is the command name; scan the family; push the
   * leaf's identity into the environment; load every node from the leaf to
   * the root; run the cgroups pass when a node asks for cgroups; write the
   * remaining arguments and execv the launcher. Every failure ends in exit(1).
   */
  method RedwrapMain(commandName: string, bwrap: string, scan: Option<seq<Node>>, parse: Parser,
                     expand: Expander, subargv: seq<string>, maxArgs: nat, maxVarLen: nat,
                     execReturns: bool) returns (r: Outcome)
    requires maxArgs >= 1 && maxVarLen >= 1
    requires scan.Some? ==> |scan.value| > 0
    ensures r == Run(commandName, bwrap, scan, parse, expand, subargv, maxArgs, maxVarLen, execReturns)
  {
    var args := new ArgVector(maxArgs);
    args.Push(commandName);
    if args.overflowed {
      return Outcome([], Aborted(ArgCapacityExceeded));
    }
    if scan.None? {
      return Outcome([], Aborted(ScanError));
    }
    r := RunFamily(commandName, bwrap, scan.value, parse, expand, subargv, maxVarLen, execReturns, args);
  }

  /**
   * redwrapMain from the scan on: the walk from the leaf to the root, then
   * the launch when every node loaded.
   */
  method RunFamily(commandName: string, bwrap: string, chain: seq<Node>, parse: Parser,
                   expand: Expander, subargv: seq<string>, maxVarLen: nat, execReturns: bool,
                   args: ArgVector) returns (r: Outcome)
    requires |chain| > 0 && maxVarLen >= 1
    requires args.Valid() && !args.overflowed && args.Requested == [commandName]
    modifies args, args.argval
    ensures r == Run(commandName, bwrap, Some(chain), parse, expand, subargv, args.argval.Length, maxVarLen, execReturns)
  {
    var redtree := chain[0];
    var ldpath := new EnvBuffer(maxVarLen);
    var path := new EnvBuffer(maxVarLen);
    assert InitialState(commandName, redtree)
        == WalkState(EmptyTags, args.Requested, ldpath.Contents(), path.Contents(), LeafEnv(redtree));
    var merged, effects, err, isCgroups := WalkFamily(chain, parse, LeafEnv(redtree), args, ldpath, path);
    if err.Some? {
      return Outcome(effects, Aborted(err.value));
    }
    r := LaunchBwrap(chain, merged, effects, isCgroups, bwrap, expand, subargv, execReturns, args, ldpath, path);
  }

  /**
   * The second half of redwrapMain: the cgroups pass, the arguments that
   * follow the node fragments, and execv.
   */
  method LaunchBwrap(chain: seq<Node>, merged: ConfTag, effects: seq<Effect>, isCgroups: bool, bwrap: string,
                     expand: Expander, subargv: seq<string>, execReturns: bool,
                     args: ArgVector, ldpath: EnvBuffer, path: EnvBuffer) returns (r: Outcome)
    requires |chain| > 0 && isCgroups == AnyCgroups(chain)
    requires args.Valid() && !args.overflowed && ldpath.Valid() && path.Valid()
    modifies args, args.argval
    ensures r == Launch(chain, WalkState(merged, old(args.Requested), ldpath.Contents(), path.Contents(), effects),
                        bwrap, expand, subargv, args.argval.Length, execReturns)
  {
    var effects := effects;
    if isCgroups {
      var calls := ApplyCgroups(chain);
      CgroupsPassOrder(chain);
      assert calls == CgroupsPass(chain);
      effects := effects + calls;
    }
    var pathValue := path.Contents();
    var ldpathValue := ldpath.Contents();
    BuildLaunchArgs(args, merged, pathValue, ldpathValue, chain[0], expand, subargv);
    if args.overflowed {
      return Outcome(effects, Aborted(ArgCapacityExceeded));
    }
    var argv := args.Written();
    effects := effects + [Exec(bwrap, argv)];
    if execReturns {
      // execv only returns on failure; the error log after it runs in every case
      return Outcome(effects, Aborted(LaunchError));
    }
    return Outcome(effects, Replaced);
  }
}
