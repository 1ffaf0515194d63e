# Verified model of XIOSYNC's worker-side state machines

This project models five parts of XIOSYNC that carry real state and proves what they guarantee,
and exactly when.

- **Blob store on the shared mount** (`colab/xio_drive_fs.py`). `DriveProtocol` is a step relation
  for one file under any number of spellings: any number of nodes run `put`, `get` and `delete`, interleaved action by action with
  the clock, crashes, lost server replies and failed releases. `DriveExclusion` proves mutual
  exclusion of the two-tier lock and the exact condition for it. `AtomicStore` is the intended
  meaning, and `DriveRefinement` proves that every run is a history of it. `DrivePaths` resolves
  keys to files; `DriveMount` puts all files together into one directory tree and one lock server,
  whose entries are per spelling; `DriveListing` lists the tree. `DriveClient` is one node's
  imperative client with the deadline loops.
- **Reverse-tunnel daemon** (`scripts/xio_proxy_daemon.py`). `Tunnels` says what each operation does
  to the registry and the processes and proves the registry exact over every run;
  `TunnelsConverge` proves convergence of a watchdog round; `TunnelDaemon` is the daemon as a class
  whose methods are proved equal to those functions; `TunnelCommand` is the ssh command line.
- **SOCKS5 bridge** (`colab/xiorun_agent.py`). `Socks` parses a client's request and prints it for the
  upstream proxy, with `Decimal` for dotted decimal and `Utf8` for strict UTF-8 in between.
- **DAG runners** (`colab/xiorun_agent.py`, `colab/poll_loop.py`). `Templates` is the variable
  substitution, `DagRunner` the node loop and the retry loop, `PollLoop` the simpler runner.
- **Rename migrations** (`colab/rename_drive_profiles.py`, `colab/rename_ts_states.py`). `Migration` is
  the loop both scripts share, `Profiles` and `TsStates` are the two plans.

## What the proofs found

Several promises hold only under a condition. Each condition below is proved to decide the matter,
and each failure is shown by a lemma at an input or by a constructed run.

- The lock of a file excludes other holders for `t` seconds exactly when all nodes use the same tier;
  no node's `lock_ttl` is below `t` (staleness is judged by the inspecting node's own ttl); the file
  has one spelling, if the server is used; and, if the file tier is used, nothing happens between
  reading a `.xiolock` and unlinking it, or between creating one and writing the record into it. The
  code takes several system calls for each of the last two: a second node can unlink a lock file that
  is still empty (`ExclusionExactlyWhen`, `BrokenWhenCreateSplits`, `BrokenWhenUnlinkSplits`).
- The server locks the key as it is spelled, the file is the resolved path, and every relative key has
  a second spelling. Over the whole mount this adds: no two spellings in use may name the same file
  (`MountExcludesExactlyWhen`, `TwoSpellingsTwoHolders`, `SpellingsShareFile`).
- Results about values therefore assume such a deployment, collision-free checksums, and runs in which
  no live holder outlasts the shortest ttl (`Deployment`, `Timely`). Without the last, a holder that
  sleeps past its ttl publishes a torn value, in every deployment (`TornWhenOverrun`).
- A key that resolves to the root itself has its lock file beside the root (`FilesInsideExactlyWhen`,
  `RootKeyLocksOutside`).
- A listing whose prefix is the name of a lock or staging file that is there reports that file,
  although internal files are said to be excluded (`ListPrefixExactly`, `CrashedLockListed`).
- After a watchdog round, the next one starts nothing exactly when the SOCKS tunnels survived: a
  SOCKS tunnel that dies before the health check is reaped but not respawned
  (`NextTickIdleExactlyWhen`, `DeadSocksNotRespawned`).
- When the start that replaces a bundle fails, the health check of the same round starts the old slots
  again; if that fails too, the bundle is gone (`ReplacementOutcome`). One round whose starts succeed
  makes good whatever failed before (`RecoversAfterEveryRun`).
- The bridge forwards a request byte for byte exactly when version and reserved byte are standard
  and the address is IPv4 or an ASCII name: the length byte of a non-ASCII name counts characters
  (`RelaysVerbatimExactlyWhen`, `AccentedHostChanged`). A greeting without methods
  swallows the first byte of a request that is already there when the greeting is read; a client that
  waits for the answer is served (`NoMethodsRefusedExactlyWhen`).
- A second profile migration is idle exactly when every identity has a serial of at most three digits
  and a user name, or else the serial of the identity that its user name leads to. A longer serial or
  an empty user name can break this, against the script's own "safe to re-run"
  (`ProfilesIdleExactlyWhen`, `LongSerialMovesOn`, `NoNameMovesOn`).
- The order of variables never matters in template filling exactly when no variable's token can be
  spelled by brace-free text and the values of the others, unless the variable stands for its own
  token. For single braces that means: no value contains the token, and no tail of one value and head
  of another open and close it; at any depth a walk over the token decides it
  (`OrderNeverMattersExactlyWhen`, `CompletesExactlyWhen`, `CompletesExactlyWhenCovered`,
  `BracesInValuesMatter`).
- The header of `scripts/xio_proxy_daemon.py` names worker ports 1056 and 10100; the code uses 19056
  and 19100, and so does the model.

## Model

| member | source | states |
|---|---|---|
| DriveExclusion.ExclusionExactlyWhen | colab/xio_drive_fs.py:103-221 | in every deployment of two or more nodes, every run has at most one holder of a file within `t` seconds of its acquire time if and only if the nodes use one tier, no ttl is below `t`, the file has one spelling (if the server is used), and (if the file tier is used) neither read-then-unlink nor create-then-write of the lock file is interleaved; both directions, with constructed runs for the failures |
| DriveExclusion.InvStep | colab/xio_drive_fs.py:147-188 | where the lock file is handled without interleaving, every action, crashes and lost replies included, keeps the invariant that a fresh holder's lock is recorded as its own in the tier it was told |
| DriveExclusion.FreshHolderKeepsItsLock | colab/xio_drive_fs.py:147-176 | where the lock file is handled without interleaving, after every run a node within the shortest ttl of its acquire time still has its own lock in place |
| DriveExclusion.LateReleaseSparesSuccessor | colab/xio_drive_fs.py:178-188 | where the lock file is handled without interleaving, however late a node releases, no lock that another node took within the shortest ttl is removed |
| DriveExclusion.LateReleaseTakesSuccessors | colab/xio_drive_fs.py:178-188 | where a release's read and unlink are interleaved, a node that sleeps past its ttl between the two removes its successor's fresh lock |
| DriveExclusion.BrokenWhenTiersMix | colab/xio_drive_fs.py:192-221 | a node that reaches the server and one that falls back to the file can both hold the lock |
| DriveExclusion.BrokenWhenTtlShort | colab/xio_drive_fs.py:155-156 | a node whose ttl is below `t` lets another one in while the holder is within `t` |
| DriveExclusion.BrokenWhenUnlinkSplits | colab/xio_drive_fs.py:152-158 | two nodes that both read a garbled lock file before unlinking it both end up holding |
| DriveExclusion.BrokenWhenCreateSplits | colab/xio_drive_fs.py:152-171 | a node that finds a lock file created but still empty unlinks it and takes the lock; its creator, writing into the unlinked file, holds it too |
| DriveExclusion.BrokenWhenSpellingsMix | colab/xio_drive_fs.py:108-114 | two nodes that spell the key of one file differently both get a lock from the server |
| DriveExclusion.StaleLockTaken | colab/xio_drive_fs.py:151-173 | a node that waits for the lock file goes back to inspecting it, and takes it once it is stale |
| DriveRefinement.StepRefines | colab/xio_drive_fs.py:235-312 | every action is one step of the atomic store with the same observable event |
| DriveRefinement.RunRefines | colab/xio_drive_fs.py:235-312 | every interleaving of put, get and delete is a history of the atomic store: each call takes effect at one instant, put answers False only if the value already equalled its data, a timeout changes no value, and a get without the lock fails only if the value is gone at its read |
| DriveRefinement.EffectsAreSequential | colab/xio_drive_fs.py:235-312 | final value and all answers are those of the calls that took effect executed one at a time; failed calls leave no trace |
| DriveRefinement.NoTornValues | colab/xio_drive_fs.py:272-293 | after every run the stored value, and what any get with or without the lock is about to answer, is absent, initial or the complete data of one put, although all writers share one staging path and crashes leave it partial |
| DriveRefinement.AnswersWithoutLock | colab/xio_drive_fs.py:251-306 | a put of the stored data, a get without the lock, and a get or delete of nothing answer at once, the get with the stored value, and touch no lock |
| DriveRefinement.TimeoutLeavesNoTrace | colab/xio_drive_fs.py:202-221 | a call that waits for the lock may time out; the caller sees XIOLockTimeout and nothing else has changed |
| DriveRefinement.LostReplyBlocks | colab/xio_drive_fs.py:103-127 | a request whose reply is lost keeps the server's lock from everybody, while its node goes on to the file |
| DriveRefinement.TornWhenOverrun | colab/xio_drive_fs.py:272-275 | without the time bound the opposite: in every deployment of two or more nodes a holder that sleeps past its ttl publishes what its successor has half written, the data of no put |
| DriveRefinement.HolderKnowsStep | colab/xio_drive_fs.py:262-279 | what a holder learned about the value and the staging file stays true under every action of the others |
| DriveRefinement.CallsLeaveNothingBehind | colab/xio_drive_fs.py:262-312 | after a run without crashes and losses, once no call is in progress, no staging file and no lock of either tier is left |
| DrivePaths.AcceptsExactlyInside | colab/xio_drive_fs.py:85-91 | the slash-terminated string-prefix test accepts a key exactly when the components of its resolved path extend the root's, for empty, `.`, `..` and absolute parts |
| DrivePaths.ParentUndoes | colab/xio_drive_fs.py:86 | `..` undoes the name before it: `n/../rest` is `rest` |
| DrivePaths.EscapeRefusedExactlyWhen | colab/xio_drive_fs.py:86-90 | `../n` leads to `n` beside the root, and is accepted exactly when `n` is the root's own name |
| DrivePaths.AbsoluteForgetsRoot | colab/xio_drive_fs.py:86 | an absolute key names the same file under every root |
| DrivePaths.EmptyPartsIgnored | colab/xio_drive_fs.py:86 | doubled and trailing slashes and `.` change nothing |
| DrivePaths.TmpAppends | colab/xio_drive_fs.py:273 | replacing the suffix by itself plus the staging suffix appends the staging suffix, whatever dots the name has |
| DrivePaths.FilesOverlapExactlyWhen | colab/xio_drive_fs.py:93-95 | the value, lock and staging files of two keys overlap exactly when one key is the other's lock or staging file |
| DrivePaths.PlainKeysDisjoint | colab/xio_drive_fs.py:49-51 | keys without an internal suffix share no file |
| DrivePaths.FilesInsideExactlyWhen | colab/xio_drive_fs.py:85-95 | lock and staging file of an accepted key lie inside the root exactly when the key does not resolve to the root itself |
| DrivePaths.RootKeyLocksOutside | colab/xio_drive_fs.py:85-95 | the key `.` is accepted and its lock and staging files lie outside the root |
| DrivePaths.SpellingsShareFile | colab/xio_drive_fs.py:86-91 | every relative key has a second spelling that resolves to the same file |
| DriveMount.KeyRuns | colab/xio_drive_fs.py:85-114 | one file's view of any run of the whole mount, with the server entries of all its spellings, is a run of its own protocol ending in its own view of the final mount |
| DriveMount.EveryKeyRefines | colab/xio_drive_fs.py:235-312 | every file of the mount refines its own atomic store, whatever happens on the others; on the server tier, if it is spelled in one way |
| DriveMount.MountExcludesExactlyWhen | colab/xio_drive_fs.py:85-221 | with two or more nodes, every file of the mount has at most one fresh holder in every run if and only if the nodes use one tier, no ttl is too short, the lock files are handled without interleaving (if used), and no two spellings in use name one file (if the server is used) |
| DriveMount.TwoSpellingsTwoHolders | colab/xio_drive_fs.py:108-114 | on the server tier, any two spellings of one file let two nodes hold it at once |
| DriveMount.KeysCommute | colab/xio_drive_fs.py:235-312 | steps of calls on different files commute |
| DriveListing.ListPrefixExactly | colab/xio_drive_fs.py:314-329 | after every run, crashed ones included, a listing is refused exactly when the prefix leads outside the root; otherwise it is ascending, holds every stored key below the prefix in one spelling, and nothing else exactly when the prefix does not name a lock or staging file that is there |
| DriveListing.ScanOrderIrrelevant | colab/xio_drive_fs.py:323-329 | the answer does not depend on the order in which the directories are scanned |
| DriveListing.AcceptedKeyNamed | colab/xio_drive_fs.py:86-91 | the spelling a listing uses for an accepted key resolves to the same file |
| DriveListing.NameSpelled | colab/xio_drive_fs.py:324 | the spelling is the names below the root, a slash between each two |
| DriveListing.BeforeExactlyWhen | colab/xio_drive_fs.py:323 | the order of the listing: a proper beginning first, else the smaller character where two spellings first differ |
| DriveListing.CrashedLockListed | colab/xio_drive_fs.py:319-322 | from an empty mount, one crash while a lock file is created makes a listing report that lock file |
| DriveClient.Client.FsAcquire | colab/xio_drive_fs.py:147-176 | it terminates; it wins the lock at the first attempt that finds it absent or stale, and leaves everything else as the other nodes left it; it gives up only after the deadline with every attempt refused; attempts are a poll interval apart |
| DriveClient.Client.AcquireLock | colab/xio_drive_fs.py:192-221 | the server is asked first, the file tier is tried after a request that was not answered, only then, and for good; at most ceil(timeout / 1.2) attempts plus one for a fallback; the reported tier is that of the first attempt that found its lock free or stale, and the whole state is the one of that instant with this node entered; XIOLockTimeout only after the deadline with every attempt refused |
| DriveClient.Client.WonWasFree | colab/xio_drive_fs.py:147-221 | a lock that is won was free or stale at that instant and is then this node's; the other tier's lock, the value and the staging file are untouched |
| DriveClient.Client.RefusedWasHeld | colab/xio_drive_fs.py:147-221 | an attempt is refused only if it met a readable lock taken no longer ago than the ttl, or got no answer |
| DriveClient.Client.ReleaseLock | colab/xio_drive_fs.py:129-188 | a release that gets through frees exactly the given tier if it is this node's; one that fails is swallowed and changes nothing |
| DriveClient.Client.ReleaseSparesOthers | colab/xio_drive_fs.py:129-188 | a release, delivered or not, leaves another node's lock, the other tier, the value and the staging file alone |
| DriveClient.Client.Put | colab/xio_drive_fs.py:235-279 | without a lock only for a value equal to the data; otherwise attempts in acquire_lock's order and number, and either every attempt is refused and nothing else happens, or the lock is won and answer and value are the atomic effect on the value found at that instant, the staging file is gone after a write, and the lock is released |
| DriveClient.Client.Get | colab/xio_drive_fs.py:281-298 | without a lock only when asked so or nothing is stored; otherwise, by attempts in acquire_lock's order and number, it wins the lock and answers the value found at that instant, which it leaves alone |
| DriveClient.Client.Remove | colab/xio_drive_fs.py:300-312 | without a lock only when nothing is stored; otherwise, by attempts in acquire_lock's order and number, it wins the lock, answers whether there was a value at that instant, and leaves none |
| DriveClient.Client.ServedLetsGo | colab/xio_drive_fs.py:262-312 | a call that did not time out and whose release got through leaves its tier free, and no staging file after a write |
| Tunnels.RegistryExactAfterEveryRun | scripts/xio_proxy_daemon.py:136-252 | after any run of pushes, watchdog rounds, health checks and deaths, whatever starts fail, every live process is the one recorded under the key it was started for |
| Tunnels.NeverTwoPerKey | scripts/xio_proxy_daemon.py:55-56 | an exact registry has at most one live process per key |
| Tunnels.PushBundledInv | scripts/xio_proxy_daemon.py:212-252 | pushing a bundle keeps the registry exact, whether it is a no-op, replaces a live bundle, or fails to start |
| Tunnels.CheckInv | scripts/xio_proxy_daemon.py:328-354 | a health check with its respawns keeps the registry exact |
| Tunnels.CheckForgetsDead | scripts/xio_proxy_daemon.py:328-354 | after a check, with or without a VM address, no entry that was dead is still recorded with its process; without one exactly the running entries are left and nothing is started |
| Tunnels.SharedLabelLeaks | scripts/xio_proxy_daemon.py:218-231 | a plain tunnel recorded under the bundle label is overwritten while it runs |
| TunnelsConverge.TickConverges | scripts/xio_proxy_daemon.py:357-381 | after a round whose starts succeed every target has a bundle with exactly the requested slots, running unless it died after the health check looked, including bundles that died between push and check |
| TunnelsConverge.RecoversAfterEveryRun | scripts/xio_proxy_daemon.py:357-381 | the same after any run before, whatever starts failed and whatever died in it |
| TunnelsConverge.RoundInventsNoSlots | scripts/xio_proxy_daemon.py:212-252 | whatever starts fail and whatever dies, a round leaves a worker's bundle unrecorded, with the slots it had, or, for a target, with the requested ones |
| TunnelsConverge.ReplacementOutcome | scripts/xio_proxy_daemon.py:230-352 | replacing a running bundle in a round without deaths: the requested slots if the start succeeds, else the old slots if the health check's start does, else no bundle |
| TunnelsConverge.TickIdleExactlyWhen | scripts/xio_proxy_daemon.py:212-262 | a round attempts no start exactly when every target's tunnels run with the requested slots and no recorded bundle is dead |
| TunnelsConverge.NextTickIdleExactlyWhen | scripts/xio_proxy_daemon.py:328-381 | after a successful round and no later death, the next round starts nothing exactly when every target's SOCKS tunnel still runs, in whatever orders the two rounds list the registry |
| TunnelsConverge.DeadSocksNotRespawned | scripts/xio_proxy_daemon.py:334-352 | a concrete round in which a SOCKS tunnel dies, after which the next round has to start it again |
| TunnelsConverge.PushBundlesSettle | scripts/xio_proxy_daemon.py:346-352 | respawning a list of bundles settles each of them and keeps what was up |
| TunnelDaemon.Daemon.OpenSshReverse | scripts/xio_proxy_daemon.py:136-183 | the in-place operation has the specified effect on registry and processes |
| TunnelDaemon.Daemon.PushBundledTunnels | scripts/xio_proxy_daemon.py:212-252 | the in-place operation has the specified effect on registry and processes |
| TunnelDaemon.Daemon.CheckTunnels | scripts/xio_proxy_daemon.py:328-354 | the loops reap exactly the dead entries, return exactly those, and respawn the dead bundles in registry order |
| TunnelDaemon.Daemon.WatchdogRound | scripts/xio_proxy_daemon.py:373-379 | the loop over targets and the health check compose to one specified round |
| TunnelDaemon.Daemon.Shutdown | scripts/xio_proxy_daemon.py:446-452 | exactly the recorded processes are ended; with an exact registry none is left |
| TunnelCommand.BuildBundledSshCmd | scripts/xio_proxy_daemon.py:186-209 | the loop builds the specified command |
| TunnelCommand.CommandReadsBack | scripts/xio_proxy_daemon.py:204-208 | reading the `-R` arguments back gives one forward per slot in ascending order, none on the SOCKS port; ports are distinct exactly when slots are, and valid exactly when no slot exceeds 46435 |
| TunnelCommand.RulesSpelled | scripts/xio_proxy_daemon.py:204-208 | slot n is port 19100 + n of the worker and 10000 + n of the VM |
| TunnelCommand.CommandArguments | scripts/xio_proxy_daemon.py:188-209 | the program, its options, and the worker as the last argument |
| Socks.RelaysVerbatimExactlyWhen | colab/xiorun_agent.py:185-279 | once two bytes have arrived, greeting and request are consumed exactly, and the CONNECT sent upstream is the client's byte for byte exactly when version is 5, the reserved byte 0, and the address IPv4 or an ASCII name (sections 3 and 4 of RFC 1928) |
| Socks.AnswersExactlyWhen | colab/xiorun_agent.py:185-279 | for every input and every proxy: the client is told that it is granted exactly when it is relayed, which is when a CONNECT was sent and agreed to; it is told that the host is unreachable only when the proxy could not be reached or disagreed, and then the connection is closed; whatever raises leaves it without an answer |
| Socks.RelaysExactlyWhen | colab/xiorun_agent.py:224-279 | for every well-formed CONNECT the three outcomes are decided by whether the proxy can be reached and which of its replies arrive with second byte 0 |
| Socks.OtherRequestsRefused | colab/xiorun_agent.py:201-220 | anything but CONNECT is refused with code 7, an unknown address type closes the connection, and the proxy sees neither |
| Socks.ShortRequestsRefused | colab/xiorun_agent.py:201-206 | fewer than four bytes of request are refused with code 7 |
| Socks.CutRequestsRaise | colab/xiorun_agent.py:208-222 | a CONNECT cut off within its address or port raises before anything goes upstream |
| Socks.OtherVersionsClosed | colab/xiorun_agent.py:188-191 | a client of another version is closed without an answer |
| Socks.PrintsSameExactlyWhen | colab/xiorun_agent.py:258-267 | the parsed and reprinted request equals the original exactly under that condition |
| Socks.AccentedHostChanged | colab/xiorun_agent.py:258-267 | the two-byte host `é` goes upstream with length byte 1 |
| Socks.NoMethodsRefusedExactlyWhen | colab/xiorun_agent.py:188-205 | after a greeting with no methods a well-formed CONNECT is refused exactly when more than the greeting had arrived at the first read; otherwise it is served |
| Socks.UndottedDotted | colab/xiorun_agent.py:209-262 | dotted decimal of any address parses back to it |
| Socks.Connection.Handle | colab/xiorun_agent.py:185-279 | the handler on a stream, short reads and bad replies included, consumes, answers and forwards what the specification says |
| Utf8.EncodeDecode | colab/xiorun_agent.py:212-260 | strict UTF-8 decoding is undone by encoding, and has as many characters as bytes exactly for ASCII |
| Utf8.DecodesExactlyWhen | colab/xiorun_agent.py:212-215 | bytes decode exactly when they are the encoding of characters that are no surrogates |
| Templates.SequentialIsSimultaneous | colab/xiorun_agent.py:1366-1368 | replacing variable after variable equals one simultaneous substitution, for templates of brace-free literals and tokens and every harmless dict with brace-free keys, in single- and double-brace form |
| Templates.OrderNeverMattersExactlyWhen | colab/poll_loop.py:81-89 | the order of the dict never matters if and only if no variable's token, unless it is the variable's own value, can be spelled by brace-free text and the values of the other variables |
| Templates.CompletesExactlyWhen | colab/poll_loop.py:81-89 | for single braces a token can be so spelled exactly when one value contains it, or one ends with its opening and another starts with its closing with room for the rest of the key |
| Templates.CompletesExactlyWhenCovered | colab/xiorun_agent.py:1366-1368 | at any depth, exactly when one value contains it, or one ends with a beginning of it and the rest can be laid out as brace-free characters and whole values, up to its end or into a last value |
| Templates.BraceFreeHarmless | colab/xiorun_agent.py:1366-1368 | dicts with brace-free values are harmless |
| Templates.BracesInValuesMatter | colab/xiorun_agent.py:1311-1312 | a value that looks like a token makes the order matter |
| Templates.ReplaceFills | colab/xiorun_agent.py:1601-1605 | string replacement of a token hits exactly that token's occurrences |
| Templates.Substitute | colab/xiorun_agent.py:1311-1312 | the loop computes the sequential replacement |
| DagRunner.RunReports | colab/xiorun_agent.py:1290-1747 | for every graph and every outcome: records are those of the steps up to the first that halts the loop, with the login flag of the steps before; success is reported exactly when no recorded failure is fatal; otherwise the last step is to blame; a trace is the same prefix, correctly back-linked |
| DagRunner.MissesEndRun | colab/xiorun_agent.py:1297-1745 | a recorded navigation that raises, or locator or endpoint that does not work, and is not skipped after a login, is recorded as failed; without `fail_ok` it is the last step and the run fails |
| DagRunner.AllOkMissesNothing | colab/xiorun_agent.py:1297-1745 | a successful run without a UC login missed no step that lacks `fail_ok` |
| DagRunner.HitsGoOn | colab/xiorun_agent.py:1297-1698 | a step that works, with no handler raising, is recorded as succeeded and ends the run only if it finds the session signed in |
| DagRunner.EndsExactlyWhen | colab/xiorun_agent.py:1331-1745 | the run ends before the last step of the graph exactly at a step that finds a session, fails without `fail_ok`, or fails to reach the sign-in page of a session that is signed in; it is successful then exactly when the failure, if any, had `fail_ok` |
| DagRunner.FailedWaitsGoOn | colab/xiorun_agent.py:1439-1441 | a wait that raises is recorded as failed and never ends the run |
| DagRunner.RunNodes | colab/xiorun_agent.py:1290-1747 | the loop, with its early exits, leaves behind the specified report |
| DagRunner.LoginCarriesOver | colab/xiorun_agent.py:1290-1309 | once a recorded step has logged in through UC, a later native step is recorded as failed exactly when a handler is registered for its intent and raises, whatever the page does; otherwise the loop goes on |
| DagRunner.LoginRecordedExactlyWhen | colab/xiorun_agent.py:1669-1698 | a step that logs in is recorded as failed exactly when a handler is registered for its intent and raises; with the handlers the module registers (`click_signin` only, line 1029) it never is |
| DagRunner.RetryWithBackoff | colab/xiorun_agent.py:668-690 | first success or exactly `max_retries` + 1 failures; delays are the capped doublings exactly when the base is within the cap or nothing was retried, and then sum to at most the cap per retry |
| PollLoop.TryTiers | colab/poll_loop.py:90-105 | the tier acted on is the first in priority order that works |
| PollLoop.RunNodes | colab/poll_loop.py:65-143 | the recorded intents are the longest prefix whose steps succeed; success is reported exactly for the whole graph |
| Migration.MigrateRearranges | colab/rename_drive_profiles.py:150-209 | a live run is a rearrangement: every file is found afterwards, unchanged, under one name of its own, its old one or the planned one, and there are no others |
| Migration.FreeTargetsReached | colab/rename_drive_profiles.py:185-201 | a listed file whose planned name is free, and planned for no other, is found under it afterwards |
| Migration.MigrateKeepsContents | colab/rename_drive_profiles.py:196-209 | a live run preserves the multiset of file contents |
| Migration.Folder.Run | colab/rename_drive_profiles.py:148-209 | renamed, skipped and unknown add up to the number of files, and skipped is the number of canonical ones; a dry run changes nothing and counts the files whose planned name is free as renamed; a live run has the specified result |
| Migration.SecondRunIdleExactlyWhen | colab/rename_drive_profiles.py:144-209 | in every directory and order a second run changes nothing exactly when no target is itself moved elsewhere |
| Profiles.NormalizeFixedExactlyWhen | colab/rename_drive_profiles.py:56-62 | normalisation is idempotent and its fixed points are exactly the strings of lower-case letters, digits and single inner underscores |
| Profiles.UpperNormalizes | colab/rename_drive_profiles.py:58-62 | case does not matter |
| Profiles.SeparatorNormalizes | colab/rename_drive_profiles.py:58-62 | any other character between two parts becomes an underscore, unless it makes a serial of them |
| Profiles.NoDigitsNoSerial | colab/rename_drive_profiles.py:59-62 | without digits `prfl-_` is no serial, and neighbouring underscores become one |
| Profiles.StemNormalizes | colab/rename_drive_profiles.py:59-66 | normalising a canonical stem gives the normalised user name for every serial |
| Profiles.CanonicalRecoversExactlyWhen | colab/rename_drive_profiles.py:140 | the canonical pattern matches a canonical name, and recovers serial and user name, exactly for serials 0 to 999 and non-empty user names |
| Profiles.MatchCanonicalExactlyWhen | colab/rename_drive_profiles.py:140 | the names the canonical pattern matches, and its two groups |
| Profiles.MatchSlugExactlyWhen | colab/rename_drive_profiles.py:141 | the names the slug pattern matches, in any case |
| Profiles.LegacyPlan | colab/rename_drive_profiles.py:171-181 | a file named by any address of a known user is renamed to the canonical name |
| Profiles.UnknownSlugStays | colab/rename_drive_profiles.py:160-168 | a slug file without an identity stays, even if a user goes by its name |
| Profiles.ProfilesIdleExactlyWhen | colab/rename_drive_profiles.py:72-209 | for the maps the loader builds, a second migration is idle in every directory exactly when every identity's canonical name is recognised or its user name leads to an identity of the same serial |
| Profiles.LongSerialMovesOn | colab/rename_drive_profiles.py:140-209 | two accounts of `bob` with serials 1000 and 5: the slug file becomes `PRFL-1000_bob.tar.gz` and in a second run `PRFL-005_bob.tar.gz` |
| Profiles.NoNameMovesOn | colab/rename_drive_profiles.py:140-209 | two accounts with empty user names: the slug file is renamed again by a second run |
| Profiles.RecognisedIdle | colab/rename_drive_profiles.py:150-209 | with serials 0 to 999 and non-empty user names a second run changes nothing |
| TsStates.NormaliseFixedExactlyWhen | colab/rename_ts_states.py:68-82 | normalising node names is idempotent and changes exactly the names with a legacy prefix |
| TsStates.NormaliseSpelled | colab/rename_ts_states.py:68-82 | what each legacy prefix becomes, and `colab-master` |
| TsStates.GridKeysApart | colab/rename_ts_states.py:68-100 | two nodes of one grid keep different canonical keys; the same node of both grids gets one |
| TsStates.ColabKeysMeetExactlyWhen | colab/rename_ts_states.py:68-100 | two colab nodes get one canonical key exactly when one is the master and the other is called `worker` |
| TsStates.Gather | colab/rename_ts_states.py:88-117 | the scan of `ts_states/`, which passes over canonical files, and then the scan of the drive root gather exactly the moves of the plan over both listings, in that order |
| Migration.MovesAre | colab/rename_ts_states.py:88-117 | the gathered pairs are exactly the listed files the plan moves, with their targets |
| TsStates.StatesIdle | colab/rename_ts_states.py:189-212 | a second run is idle in every directory, even where legacy names collide |
| TsStates.LeftoversConflict | colab/rename_ts_states.py:189-212 | after a run, a file still to be renamed lost its key to another file, and all contents are kept |

## Left out

- DriveExclusion.ExclusionExactlyWhen: a server request is one action, and so is the evaluation of a lock record and its arrival in the file.
- DriveRefinement.RunRefines: covers no runs in which a live holder outlasts the shortest ttl (`TornWhenOverrun` shows why), no I/O errors other than a missing file, and no call that starts while its node has another call on the same key in progress.
- DriveMount.EveryKeyRefines: a node has one call at a time in progress on a file, under one spelling.
- DriveListing.ListPrefixExactly: a listing reads one snapshot of the tree; changes during the scan are not modelled.
- DriveClient.Client.Put: while the lock is held the other nodes are quiet, and the key has one spelling; the protocol modules treat both step by step. Directories are taken to exist.
- DrivePaths.AcceptsExactlyInside: symbolic links are not followed.
- Tunnels.RegistryExactAfterEveryRun: one thread; a killed process is gone at once; processes die in the daemon's pauses or between calls.
- TunnelDaemon.Daemon.Shutdown: an interrupt during the two seconds of a start, when the new process runs but is not recorded yet, is not a step of the model; such a process would be left behind.
- Tunnels: discovery of workers and slots over HTTP, and the SOCKS5 server of the daemon; targets and slots are inputs.
- Socks.RelaysVerbatimExactlyWhen: reads after the first return all bytes asked for unless the stream ends; the text form of an IPv6 address is an input; the relay after the handshake is not modelled.
- Templates.OrderNeverMattersExactlyWhen: keys, and literals of the template itself, are brace-free.
- DagRunner.RunReports: an exception outside the step's own try block (a closed page in the final wait) is not modelled; the page, the endpoints and the handlers are inputs; TOTP values are not computed.
- Profiles.NormalizeFixedExactlyWhen: digits and letters are the ASCII ones, while `\d` also matches other decimal digits.
- Profiles.ProfilesIdleExactlyWhen: the identity maps are inputs; the database half of both rename scripts is not modelled.
- Migration.SecondRunIdleExactlyWhen: no rename raises OSError, and names are those of files, not of directories.
- SHA-256 is an abstract function; where it matters it is assumed collision-free. The lock server is set-if-absent with a ttl and release by owner only.
- The notice store, the proxy probe loop, the capacity gate and all browser driving: simple members, or dependent on pages outside the repository.
