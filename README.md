# red-wrap launcher: a Dafny model of `loadNode` and `redwrapMain`

red-wrap starts a program inside a bubblewrap (`bwrap`) sandbox. It first finds the
family of red nodes for a path: a leaf node and its ancestors, up to the root node.
Then it takes these steps:

- It walks the family from the leaf to the root (`loadNode`). At each node it does four things:
  - it merges the node's configuration tags into one merged set (its own conftag first, then the administrator's);
  - at the root only, it applies the umask;
  - it lets `RwrapParseNode` append the node's argument fragment to `argval`;
  - it appends the node's `ldpath` and `path` to two bounded buffers, joined by `:`.
- If any node asks for cgroups, it calls `cgroups()` for every node, from the root down to the leaf.
- It appends the rest of `argval`, in this order:
  - the two `--setenv` pairs;
  - the hostname and chdir entries;
  - the six share options;
  - `--die-with-parent` and `--new-session`;
  - the user's command.
- It `execv`s bwrap. Every failure ends in `exit(1)`.

The model has seven modules, plus a `Wrappers` module that holds `Option`:

- `RedConf`: the tags and the merge policy.
- `EnvPath`: the two path buffers, an `EnvBuffer` class over a `char` array with its write index.
- `ArgVec`: `argval`, an `ArgVector` class over a `string` array with `argcount`.
- `RedwrapSpec`: the whole run as a function, `Run`. It maps the inputs to the list of effects (`PutEnv`, `SetUmask`, `CgroupsCall`, `Exec`) and to how the run ends (`Replaced` by bwrap, or `Aborted` with a cause).
- `RedwrapMain`: `loadNode` and `redwrapMain` as methods over those objects. Each method is proved to produce exactly what `RedwrapSpec` says.
- `LaunchProperties`: lemmas about `Run`.
- `ArgLimitFinding`: the user-argument limit check as written (see "## Findings").

The family chain is a sequence ordered from the leaf to the root:

- index 0 is `redtree`, the only node with `lastleaf`;
- the ancestor of node `i` is node `i + 1`;
- the root is the last node.

`RedNodesScan` is assumed to link the family both ways: following `child` from the root visits exactly the nodes that following `ancestor` from `redtree` visited, in reverse, and `redtree` has no child. The cgroups pass (`ApplyCgroups`, `CgroupsPassOrder`) rests on this assumption. The model walks the chain downward from the root and never reads a separate `child` link.

Some code is not part of this model: `RedNodesScan`, `RwrapParseNode`, `RedNodeStringExpand` and `execv`. They become inputs:

- `scan` is the scan result, or `None` when the scan fails;
- `parse` gives a node's fragment, or `None` when parsing fails;
- `expand` is the expansion against the leaf. It is assumed always to give a string, never NULL;
- `execReturns` says whether `execv` returns.

`MAX_BWRAP_ARGS` and `BWRAP_MAXVAR_LEN` are defined in a header that is not part of this model. They are the array sizes `maxArgs` and `maxVarLen`.

`RedConfCopyConfTags` and `RedConfAppendEnvKey` are not part of this model either. Their behaviour is assumed and written down in `CopyConfTags` and `EnvBuffer.Append`:

- Merging is first-assignment-wins for each field: a field the merged tags already hold is kept.
- A NULL path value changes nothing.
- Any other value is appended, with a `:` first when the buffer is not empty.
- The append fails when the result and its NUL would not fit.

The model follows the code, including these quirks:

- `argval[0]` is `command_name`, not the bwrap path.
- The disabled-IPC token is `--unshare-pic`, as written at line 166.
- Once any node has a cgroups spec, `cgroups()` is called for every node, including nodes whose spec is NULL, and its result is ignored. A cgroups failure therefore never aborts the run.
- The `;` after `if(execv(...))` makes the error log run whenever `execv` returns. The model ends such a run as `Aborted(LaunchError)` after the `Exec` effect.
- There is no check for a structurally malformed chain, so there is no error for one.

The argument capacity follows the corrected behaviour given under "## Findings".

## Model

| member | source | states |
|---|---|---|
| RedConf.CopyConfTags | red-wrap/redwrap-main.c:46-48 | Each field of the result is the merged field when that field is set. Otherwise it is the copied conftag's field. |
| RedConf.CopyConfTagsIdempotent | red-wrap/redwrap-main.c:46-48 | Copying the same conftag a second time changes nothing. |
| RedConf.NodeTags | red-wrap/redwrap-main.c:46-48 | A node contributes its own conftag first. It contributes a second, the admin conftag, exactly when `confadmin` and its conftag are both non-NULL. |
| RedConf.MergeNode | red-wrap/redwrap-main.c:46-48 | Fields already merged are kept. An unset field takes the node's own value when that is set. Otherwise it takes the admin value, and only when admin tags exist. |
| RedConf.MergeFirstWins | red-wrap/redwrap-main.c:46-48 | Folding the conftags in merge order gives each field the value of the first conftag that sets it. This is checked against the reference definition `FirstSet`. |
| RedConf.MergeChainIsMergeAll | red-wrap/redwrap-main.c:109-110 | Merging node by node along the walk equals copying every conftag of the walk in order: for each node, own then admin. |
| RedConf.MergeChainStep | red-wrap/redwrap-main.c:109-110 | Loading node k merges exactly that node's tags into what the first k nodes merged. |
| RedConf.LeafWinsOverAncestor | red-wrap/redwrap-main.c:46-48 | A field set by node i and by no conftag nearer the leaf has node i's value in the final merged tags. |
| EnvPath.EnvBuffer.constructor | red-wrap/redwrap-main.c:78-85 | A buffer of `BWRAP_MAXVAR_LEN` characters with index 0 holds the empty string. |
| EnvPath.EnvBuffer.Append | red-wrap/redwrap-main.c:59-63 | The call succeeds exactly when the joined value and its NUL fit. On success the contents become the old contents joined with the value by `:`. On failure they are unchanged. |
| EnvPath.JoinIsIntercalate | red-wrap/redwrap-main.c:59-63 | When every fragment is present and non-empty, the buffer after the walk is the fragments joined by `:`, leaf first. |
| EnvPath.JoinIsIntercalatePresent | red-wrap/redwrap-main.c:59-63 | For any mix of NULL and non-empty fragments, the buffer is the present fragments joined by `:`, in order. A NULL adds nothing, not even a separator. |
| EnvPath.JoinSkipsMissing | red-wrap/redwrap-main.c:59-63 | A node with a NULL path adds nothing, not even a separator. |
| EnvPath.ThreeFragmentsExample | red-wrap/redwrap-main.c:59-63 | The fragments "a", "b", "c" yield "a:b:c". |
| ArgVec.ArgVector.constructor | red-wrap/redwrap-main.c:75-77 | An empty argument vector with `MAX_BWRAP_ARGS` slots and `argcount` 0. |
| ArgVec.ArgVector.Push | red-wrap/redwrap-main.c:88 | `argval[argcount++] = s` is recorded. It is written only while a slot stays free for the NULL. Once a write is refused, the vector stays overflowed. |
| ArgVec.ArgVector.PushAll | red-wrap/redwrap-main.c:190-195 | Copying a list appends it to the recorded entries in order, and the bound is checked at every write. |
| ArgVec.ArgVector.Written | red-wrap/redwrap-main.c:207 | Without overflow, the written entries are exactly the recorded ones, and the NULL fits after them. |
| RedwrapSpec.LaunchTail | red-wrap/redwrap-main.c:125-195 | What follows the node fragments starts with the two `--setenv` pairs and ends with the user command, verbatim. |
| RedwrapSpec.LoadNodeSpec | red-wrap/redwrap-main.c:45-67 | A failing node reports itself as the failing node, with a node cause: parse (line 56), argval capacity, ldpath (line 60) or path (line 63). A node that loads leaves argval and both buffers within their capacities. |
| RedwrapSpec.WalkPrefix | red-wrap/redwrap-main.c:109-115 | A walk over k nodes that fails stops at one of those k nodes, with a node cause. One that loads at least one node keeps argval within its capacity. |
| RedwrapSpec.Launch | red-wrap/redwrap-main.c:117-213 | The walk's effects are kept as a prefix. The run either aborts for capacity or ends with an exec whose vector fits with its NULL and starts with the walk's arguments. It is then replaced, or it ends in a launch error when `execv` returns (lines 208-209). |
| RedwrapSpec.Run | red-wrap/redwrap-main.c:94-213 | A failed scan has no effects and is the only way to end in a scan error (lines 95-97). A run replaced by bwrap did not see `execv` return, and its last effect is the exec. |
| RedwrapSpec.WalkStopPersists | red-wrap/redwrap-main.c:109-111 | After the first failing node, no later node is loaded and the result does not change. |
| RedwrapSpec.AnyCgroupsExists | red-wrap/redwrap-main.c:107-115 | `isCgroups` is set exactly when some node's own conftag has a cgroups spec. |
| RedwrapSpec.CgroupsPassOrder | red-wrap/redwrap-main.c:117-123 | The cgroups pass makes one call per node. Call j is for the node j steps below the root, so the root comes first and the leaf last. |
| RedwrapMain.LoadNode | red-wrap/redwrap-main.c:45-67 | `loadNode` updates the merged tags, effects, argval and both buffers exactly as `LoadNodeSpec` does. It reports the first failure among parse, argval capacity, ldpath and path, in that order. |
| RedwrapMain.ApplyCgroups | red-wrap/redwrap-main.c:118-123 | Following `child` from `rootNode` makes one `cgroups()` call per node, from the root down to the leaf. |
| RedwrapMain.PushFlag | red-wrap/redwrap-main.c:146-150 | One share option adds its share token when enabled, its unshare token when disabled, and nothing when unset. |
| RedwrapMain.PushShares | red-wrap/redwrap-main.c:146-179 | The six options are appended in the order all, user, cgroup, ipc, pid, net. |
| RedwrapMain.PushIdentity | red-wrap/redwrap-main.c:135-144 | The hostname entries are appended, then the chdir entries. |
| RedwrapMain.PushSessionFlags | red-wrap/redwrap-main.c:181-187 | `--die-with-parent`, then `--new-session`, each appended only when enabled. |
| RedwrapMain.BuildLaunchArgs | red-wrap/redwrap-main.c:125-195 | Everything after the node fragments is appended in the source's order. |
| RedwrapMain.WalkFamily | red-wrap/redwrap-main.c:105-115 | The leaf-to-root loop ends in the state `WalkPrefix` gives, or stops with its error and effects. It also computes `isCgroups`. |
| RedwrapMain.RedwrapMain | red-wrap/redwrap-main.c:69-214 | The whole of `redwrapMain` gives exactly the effects and end that `Run` specifies. |
| RedwrapMain.RunFamily | red-wrap/redwrap-main.c:100-213 | From the leaf's `RedPutEnv` calls onward, the code matches `Run` for a scanned family. |
| RedwrapMain.LaunchBwrap | red-wrap/redwrap-main.c:117-213 | The cgroups pass, the remaining arguments, the NULL check and `execv` match `Launch`. |
| LaunchProperties.LoadNodeGoState | red-wrap/redwrap-main.c:45-63 | A node that loads adds its merge, its fragment and its two path entries. It adds the umask only at the root, with the tags merged through that node. |
| LaunchProperties.LoadNodeCauses | red-wrap/redwrap-main.c:55-63 | A failing `loadNode` fails at that node. The failure is a parse error exactly when `RwrapParseNode` failed. Otherwise it is argval capacity, ldpath overflow or path overflow. |
| LaunchProperties.WalkProduces | red-wrap/redwrap-main.c:109-115 | A walk over k nodes that has not failed holds the following, all leaf first: the k nodes' tags merged; the command name followed by their fragments; their ldpath and path joined. The umask has been applied once, after the root's merge. |
| LaunchProperties.WalkStopShape | red-wrap/redwrap-main.c:109-111 | A failed walk stopped at a node all of whose predecessors loaded. |
| LaunchProperties.WalkStopsAtFirstFailure | red-wrap/redwrap-main.c:50-56 | A failed walk stopped at its first failing node. Beyond the initial effects it adds only the umask, and only when the failing node is the root. |
| LaunchProperties.LaunchSequence | red-wrap/redwrap-main.c:100-213 | When every node loads, the effects are the three `RedPutEnv` calls, one umask, and the cgroups pass only if needed. Then comes exactly one exec of the full argument vector when it fits with its NULL; otherwise the run aborts with no exec. |
| LaunchProperties.ArgvEnds | red-wrap/redwrap-main.c:88-131 | `argval[0]` is the command name, and the user command closes the vector verbatim. |
| LaunchProperties.LaunchTailLayout | red-wrap/redwrap-main.c:125-195 | After the fragments come, in this order: the two `--setenv` pairs; the hostname and chdir entries; the share options; the lifetime options; the user command. |
| LaunchProperties.IdentityArgsShape | red-wrap/redwrap-main.c:135-144 | A merged hostname gives exactly `--unshare-uts`, `--hostname` and the expanded name. A merged chdir gives exactly `--chdir` and the expanded directory. |
| LaunchProperties.LifetimeArgsShape | red-wrap/redwrap-main.c:181-187 | `--die-with-parent` and `--new-session` each appear exactly when enabled, in that order. |
| LaunchProperties.TokensDistinct | red-wrap/redwrap-main.c:146-179 | The twelve share and unshare tokens are pairwise different. |
| LaunchProperties.ShareFlagTokens | red-wrap/redwrap-main.c:146-179 | An option's share token appears exactly when it is enabled. Its unshare token appears exactly when it is disabled. The two never both appear. |
| LaunchProperties.ShareArgsBounds | red-wrap/redwrap-main.c:146-179 | Each option adds one entry when set and none when unset, so at most six in all, and none exactly when all six are unset. |
| LaunchProperties.RunNodeFailure | red-wrap/redwrap-main.c:109-111 | A node failure aborts with that node's cause. The only effects are the leaf's `RedPutEnv` calls, plus the umask when the root failed. |
| LaunchProperties.RunEffectsOrder | red-wrap/redwrap-main.c:94-103 | A scan failure has no effects. Any other run starts with the leaf's three `RedPutEnv` calls. An exec can only be the last effect, and it is the last effect exactly when the run is replaced or ends in `LaunchError`. |
| LaunchProperties.LaunchEffectsOrder | red-wrap/redwrap-main.c:117-213 | When every node loads, the exec is the last effect exactly when the run is replaced or ends in `LaunchError`. |
| LaunchProperties.ExecArgvFits | red-wrap/redwrap-main.c:207-208 | For every input, the argument vector given to `execv` fits in argval together with its NULL. |
| LaunchProperties.SingleNodeExample | red-wrap/redwrap-main.c:69-213 | A single root-and-leaf node with the network share disabled, empty paths, and command `/bin/true` execs `cmd --setenv PATH "" --setenv LD_LIBRARY_PATH "" --unshare-net /bin/true`. |
| ArgLimitFinding.AppendUserArgsAsWritten | red-wrap/redwrap-main.c:190-195 | The loop as written ends with the vector and the log flag that `UserArgsAsWritten` gives. |
| ArgLimitFinding.CopyFromResult | red-wrap/redwrap-main.c:190-195 | From any index, the loop appends the rest of the user arguments. It logs when it had already logged, or when it reaches index `MAX_BWRAP_ARGS` before the end. |
| ArgLimitFinding.UserArgsAsWrittenResult | red-wrap/redwrap-main.c:190-195 | The loop as written appends every user argument. It logs exactly when there are more than `MAX_BWRAP_ARGS` of them. |
| ArgLimitFinding.LimitCheckMissesOverflow | red-wrap/redwrap-main.c:190-207 | For the loop's own result: whenever it logs, the NULL at line 207 no longer fits. With seven leading entries and `MAX_BWRAP_ARGS - 7` user arguments it does not log, yet `argcount` reaches `MAX_BWRAP_ARGS`, so the NULL lands outside `argval`. |

## Left out

- The verbose setting is left out: `SetLogLevel`, `RedLog` messages and the `printf` dump of the options. This is logging and output only.
- `RedNodesScan` is left out: tree discovery and configuration parsing are filesystem I/O. The scan result is an input.
- The bodies of `RwrapParseNode` and `RedNodeStringExpand` are left out because they are not part of this model. They are the inputs `parse` and `expand`.
- The bodies of `RedConfCopyConfTags` and `RedConfAppendEnvKey` are not part of this model. Their behaviour is the assumption stated above.
- The internals of `cgroups()` and `RedSetUmask` are left out. These calls are recorded as effects, as are `RedPutEnv` and `execv`.
- `exit(1)` is not modelled as a call; it is the `Aborted` end.
- Memory handling is left out: `calloc`, `strdup`, and the leaks on exit.
- When no node sets a path, the source passes an uninitialised buffer to `strdup`. The model reads it as the empty string.
- RedwrapMain.LaunchBwrap: on argument overflow it aborts before `execv`, following the corrected behaviour in "## Findings". It does not write past the array as the source can.
- RedwrapSpec.Run: with `maxArgs < 2` it aborts with a capacity error before `RedNodesScan` and with no effect, because the corrected behaviour leaves no slot for the NULL after `argval[0]`. The source writes `argval[0]` and goes on.
- `RedNodeStringExpand` returning NULL is left out. Lines 138 and 143 would then store NULL in `argval`, and `execv` would see the vector end at that slot and drop every later entry. The input `expand` always gives a string, so the model does not capture this truncation.
- ArgVec.ArgVector.Push: it refuses a write that would take the NULL slot. The source has no such check, except the one at line 191 described in "## Findings".

## Findings

| source | as written | input that shows it | evidently intended | confidence | as-written member | corrected member |
|---|---|---|---|---|---|---|
| red-wrap/redwrap-main.c:190-195 | The check compares the index into the user arguments (`idx == MAX_BWRAP_ARGS`) instead of `argcount`. It only logs and keeps writing, and line 207 then stores the NULL at `argval[argcount]`. | A leaf-only family with no fragments and no options has 7 entries before the user command. With `MAX_BWRAP_ARGS - 7` user arguments, the NULL lands one past the end of `argval` and nothing is logged. | Refuse any write that leaves no slot for the NULL, and abort with a capacity error before `execv`. | not executed | ArgLimitFinding.LimitCheckMissesOverflow | LaunchProperties.ExecArgvFits |
