# Verification of clawops

A Dafny model of the parts of clawops that change a live host, or decide who can reach it, with proofs of what
they promise. The code in question is written as ordered effects with a failure branch after each, or as parsers
and decision procedures over text nobody controls; the promises are that nothing is lost, that nobody is locked
out, and that a check which passes means what it says.

`dafny verify dfyconfig.toml` checks all of it.

How it is modelled:

- What a remote host answers is an input. Every command's success, every probe's result and the point where a
  connection dies are parameters, so a statement for all inputs is a statement for all runs.
- Code that works step by step is a class with methods, or a method with loops, proved against a specification
  function or against the property itself; the properties of whole runs are lemmas about those functions.
- Expressions and recursion over values are functions, and what they promise is stated by lemmas.

| file | what it models |
|---|---|
| `text.dfy`, `bits.dfy`, `json.dfy`, `base64.dfy` | strings, shifts and masks, parsed JSON, base64: what the rest is written in |
| `addresses.dfy`, `peer_policy.dfy` | address text, prefix ranges, packet-filter rules, and the doctor's verdict on them |
| `peer_firewall.dfy` | the check on an nftables listing, and a reference evaluator for the rules in it |
| `known_hosts.dfy`, `host_trust.dfy` | known_hosts parsing, verdicts and removal; trust on first use over whole runs |
| `files.dfy`, `restore.dfy` | a filesystem under `mv` and `rm -rf`; activating a restored backup and rolling it back |
| `tailnet.dfy` | cutover to a tailnet address, private-only and ordinary applies, and revert, as a protocol with two doors |
| `images.dfy`, `migrate.dfy` | the release an image names; the 1.x to 2.0 migration, with commands that fail and connections that die |
| `upgrade.dfy` | updating and restarting the gateway, its version and its publish scope |
| `guardrail.dfy` | the operator-only guardrail as the code computes it, and the installer's edit of the configuration it checks |
| `operator_only.dfy` | what the guardrail's conditions say of the configuration's own settings |
| `shell.dfy`, `handoff_log.dfy` | shell quoting against a reference reading of the shell; the log of requests handed to the operator |
| `merge.dfy`, `redact.dfy` | laying an overlay over a config; showing a config without its secrets |
| `pool.dfy`, `fleet.dfy` | the SSH connection pool and the fleet workers, turn by turn |

Where the code and what it says about itself differ, the model follows the code:

- `src/openclaw/restore.ts:65-66` drops a leading slash so that a manifest cannot lead out of the bundle; `..` in it
  still does. The path stays in the bundle exactly when it never climbs (`Restore.LocatedInside`); a manifest that
  leaves it is given (`Restore.ManifestEscapes`), and one step up reaches the state directory itself
  (`Restore.ClimbingMeetsTheState`).
- `src/openclaw/restore.ts:131` reports `rolledBack` without looking at whether the rename back worked. On that
  branch the former state is live exactly when the rename was permitted; otherwise it is whole under its preserved
  name (`Restore.Host.ActivateRestored`).
- `src/openclaw/backup-flows.ts:288-291` says that the gateway is stopped before the swap. Nothing stops it: the
  renames run beside it, and the restart comes after them.
- `src/openclaw/migrate-flow.ts:84-91` says the verified backup is on the host. It is written inside the 1.x
  container, and goes with it; what the migration keeps is the extracted state.
- `src/openclaw/migrate.ts:143-176` reports `migrated` when a gate opens, whatever the removal and the starts exited
  with: the 1.x container can still be there, or no 2.0 one (`Migration.LeftExactly`).
- `src/openclaw/gateway-ops.ts:198-205` does not roll back a first run that fails, after the old container has been
  removed (`Upgrade.StartFailureIsNotRolledBack`); and `versionOf` reads a registry's port or a digest as a
  version (`Upgrade.RollbackRunsTheSameImage`).
- `src/openclaw/upgrade.ts:169-173` says after a rollback that the previous image is running again. The exit of that
  run is not looked at: a target that could not be removed stays, and a gate that it opens is reported as a rollback
  (`Upgrade.OutcomeIsBacked`, with the exact condition for each outcome).
- `src/openclaw/upgrade.ts:28-30` keeps an older release from a newer database. A rollback after the target has
  migrated it hands over exactly that, and nothing else does (`Upgrade.DatabaseStepExactly`).
- `src/openclaw/runtime.ts:301-319` falls back to loopback when the bindings cannot be read, so an exposed gateway
  can be narrowed by a restart, never widened (`Upgrade.NeverWidens`, `Upgrade.ScopeKeptExactly`).
- `src/transport/ssh.ts:464-470` accepts an unknown key whose type holds a space, and records a line it cannot read
  back (`HostTrust.FirstUseRemembered`).
- `src/transport/known-hosts.ts:147` says that revoked entries always produce a mismatch. They do exactly when the
  first entry with the key is one (`KnownHosts.RevokedRefusedExactly`); a key on file ahead of its revocation
  matches (`HostTrust.RevokedYetMatches`).
- `src/hostagent/peer-policy.ts:26` keeps only the first two parts around `::`, so what follows a second one is
  never read; a text with too many groups raises rather than being refused; and a prefix whose length is missing,
  white space or zeros is the whole family (`Addresses.ReadsIPv6Exactly`, `Addresses.RaisesExactly`,
  `Addresses.CoversFamilyExactly`).
- `src/hostagent/peer-policy.ts:96-98` asks for one source range that covers a tailnet prefix, so two halves of it are
  not taken for all of it (`PeerPolicy.EveryNodeExactly`, `PeerPolicy.CoverageBySplitSources`).
- `src/hostagent/guardrail.ts:85-100` compares printed paths, so a key that holds a dot can print as the roster and
  what it holds is not looked at (`OperatorOnly.DottedKeyHides`; with plain keys the bindings and the roster are all
  that is skipped, `OperatorOnly.UnwalkedExactly`).
- `src/plan/apply.ts:226-232` says that channels replace. They are merged (`Merging.ChannelsMerge`).
- `src/harden/flows.ts:53-66` writes the override afresh, so a second cutover of a private-only stack forgets that
  its ports are closed (`Tailnet.SecondCutoverForgetsClosedPorts`). An ordinary plan without SSH rules, and an update
  that fails half-way, leave the mark wrong as well, and nothing else does (`Tailnet.MarkKeptExactly`).
- `src/harden/flows.ts:138` can lose its session inside the logout: the host has left, and the override still names
  the address it left (`Tailnet.StepStaysSound`, `Tailnet.LostLogoutMends`).
- `src/transport/pool.ts:85-95` checks the limit before it waits to connect, and puts back the array it read
  before. Interrupted, acquires can put any number of sessions under one key (`ConnectionPool.LimitExceeded`), bring
  a closed one back (`ConnectionPool.ClosedSessionHandedOut`), or drop an open one that nothing then ever closes
  (`ConnectionPool.SessionLeaks`, `ConnectionPool.LeakedForever`).

## Model

| member | source | states |
|---|---|---|
| Text.SpaceExactly | src/transport/known-hosts.ts:49 | white space is the 25 code points that ECMAScript strips and `\s` matches |
| Text.TrimExactly | src/transport/known-hosts.ts:49 | trimming takes white space off the two ends, all of it and nothing else |
| Text.LowerExactly | src/mcp/audit.ts:52 | each ASCII capital becomes its small letter and nothing else changes |
| Text.IncludesExactly | src/mcp/audit.ts:54 | one text includes another exactly when it is that one with something around it |
| Addresses.FullSpellingParses | src/hostagent/peer-policy.ts:24-33 | eight groups joined by colons, each of one to four hexadecimal digits, read as the 128-bit number they are the base-65536 digits of (section 2.2 of RFC 4291) |
| Addresses.CompressedSpellingParses | src/hostagent/peer-policy.ts:26-32 | replacing any run of zero groups by `::`, an empty one included, does not change what is read |
| Addresses.QuadParses | src/hostagent/peer-policy.ts:34-36 | four decimal octets, leading zeros allowed, read as their base-256 number, below 2^32 |
| Addresses.QuadsInjective | src/hostagent/peer-policy.ts:34-36 | two dotted texts that read as one number have the same four octets |
| Addresses.ReadsIPv6Exactly | src/hostagent/peer-policy.ts:24-33 | a text reads as an IPv6 address exactly when it is eight groups, or at most eight around a `::`, with anything after a second `::`; the number is the one the groups spell, zeros in the gap |
| Addresses.ReadsIPv4Exactly | src/hostagent/peer-policy.ts:34-36 | a text reads as an IPv4 address exactly when it is four octets joined by dots, and as the number they spell |
| Addresses.RaisesExactly | src/hostagent/peer-policy.ts:30 | reading raises exactly when there are more than eight groups around the first `::` |
| Addresses.RangeRaisesExactly | src/hostagent/peer-policy.ts:40-54 | reading a filter address raises exactly when one of the addresses in it has too many groups around its gap |
| Addresses.PrefixBounds | src/hostagent/peer-policy.ts:52-53 | clearing and setting the host bits give the block's first and last address, as division and remainder by its size do |
| Addresses.PrefixAgreement | src/hostagent/peer-policy.ts:52-53 | an address is in a prefix's range exactly when its top l bits are the prefix's (section 3.1 of RFC 4632) |
| Addresses.PrefixTextParses | src/hostagent/peer-policy.ts:46-53 | an address, a slash and a decimal length within the family's width read as that prefix |
| Addresses.CoversFamilyExactly | src/hostagent/peer-policy.ts:46-53 | an address that is not a pair covers its whole family exactly when there is a slash after it and what stands up to the next is white space, or zeros with perhaps a plus sign |
| Addresses.NamesExactly | src/hostagent/peer-policy.ts:40-54 | a filter address that reads names an address exactly when it is `*`, or two addresses of one family joined by a dash with that one between them, or a prefix that it agrees with on the top bits, an address alone being a prefix of the whole width; a length is white space, or digits with perhaps a plus sign |
| PeerPolicy.PushRanges | src/hostagent/peer-policy.ts:71 | appends the ranges of every source, in order, or raises where reading one raises |
| PeerPolicy.SourcesToPort | src/hostagent/peer-policy.ts:62-74 | the loop over the rules computes the sources of the rules that reach one of the node's own addresses on the port |
| PeerPolicy.SourcesAreTheAdmitted | src/hostagent/peer-policy.ts:56-74 | an address is among the sources exactly when some rule for TCP names it as a source and one of the node's addresses and the port as a destination |
| PeerPolicy.PortsExactly | src/hostagent/peer-policy.ts:65-69 | a rule counts as being for TCP exactly when it lists protocol 6 or none, and a destination holds a port exactly when it lies between its ends, 0 and 65535 where they are absent |
| PeerPolicy.VerdictMeans | src/hostagent/peer-policy.ts:96-127 | a pass means that every peer the filter admits carries the tag and some peer is admitted; the other verdicts list exactly the untagged admitted peers, or mean that every tailnet address, or no peer, is admitted |
| PeerPolicy.UnreadableExactly | src/hostagent/peer-policy.ts:79-113 | nothing is concluded exactly when the filter or the status was not read, or the status gives no address of the node itself |
| PeerPolicy.TailnetIs | src/hostagent/peer-policy.ts:94 | the tailnet is the two published prefixes, 100.64.0.0/10 and fd7a:115c:a1e0::/48 |
| PeerPolicy.CheckReturns | src/hostagent/peer-policy.ts:62-127 | there is a verdict, and nothing raises, when no address in the rules or the status has too many groups around its gap |
| PeerPolicy.EveryNodeExactly | src/hostagent/peer-policy.ts:94-98 | the verdict is that every node is let in exactly when, for each of the two prefixes, one range of one source of a rule that reaches the node covers the prefix alone |
| PeerPolicy.CoverageBySplitSources | src/hostagent/peer-policy.ts:96-98 | on any node of the tailnet, a filter whose sources are the two halves of 100.64.0.0/10 and the IPv6 prefix admits every tailnet address and is not reported as doing so |
| PeerFirewall.PreRules | src/hostagent/peer-firewall.ts:53-61 | the nested loop builds the four drop rules, by family and then by bridge |
| PeerFirewall.ChainBodies | src/hostagent/peer-firewall.ts:157-177 | the loop over a listing computes its chains, or nothing when the listing is not framed, nested or named properly |
| PeerFirewall.CleanedExactly | src/hostagent/peer-firewall.ts:158 | line by line, a blank line or a comment counts for nothing and any other is its trimmed text |
| PeerFirewall.ChainsExactly | src/hostagent/peer-firewall.ts:157-177 | a listing reads as given chains exactly when it is the header, those chains one after another under different names with no brace line inside, and the closing brace; their lines are taken without counter totals |
| PeerFirewall.VerdictExactly | src/hostagent/peer-firewall.ts:187-206 | the table is missing exactly when the listing lists no chains; otherwise the verdict names wrong chains, a changed `pre`, a changed `out`, or raises on the one chain named `out,pre`, each exactly when that is so |
| PeerFirewall.AcceptsExactlyInstalled | src/hostagent/peer-firewall.ts:156-206 | a listing is accepted exactly when, trimmed, without comments and with counter totals erased, it is the header, the two installed chains in either order and the closing brace |
| PeerFirewall.InstalledTableAcceptedForItsUid | src/hostagent/peer-firewall.ts:53-88 | the installed table with any counter totals is accepted for its own uid and for no other |
| PeerFirewall.AcceptedListingDecides | src/hostagent/peer-firewall.ts:179-206 | under a reference evaluator, every accepted listing drops exactly bridge traffic to the tailnet on the peer port, and resets exactly other users' traffic to that port on the tailnet interface |
| PeerFirewall.AcceptAheadOpensTheChain | src/hostagent/peer-firewall.ts:182-184 | a listing of the installed table with one `accept` ahead of its rules holds every installed line, lets every packet through, and is not accepted for any uid |
| Base64.EncodeInjective | src/transport/known-hosts.ts:156 | two keys with one base64 text are one key |
| Base64.AlphabetExactly | src/transport/known-hosts.ts:156 | the digits run from `A`, `a` and `0` and end in `+` and `/` (section 4 of RFC 4648) |
| Base64.BlocksExactly | src/transport/known-hosts.ts:156 | each three bytes give the four digits in their place, and one or two left over are padded |
| Base64.ThreeBytesExactly | src/transport/known-hosts.ts:156 | four digits are the 24 bits of three bytes, most significant first |
| Base64.KeyTypeExactly | src/transport/known-hosts.ts:218-224 | a key type is read exactly when the blob begins with it as an SSH string of 1 to 64 printable ASCII characters (section 5 of RFC 4251) |
| KnownHosts.ParseKnownHosts | src/transport/known-hosts.ts:46-71 | the loop over the lines computes the entries, in order, of the lines that make one |
| KnownHosts.LineExactly | src/transport/known-hosts.ts:48-69 | a line gives an entry exactly when its words, which are what white space separates, are perhaps a marker with `@` and then a comma-separated host list with a type and a key, or with a hexadecimal key alone; a blank line and a comment give none |
| KnownHosts.EntryMatchesHost | src/transport/known-hosts.ts:119-138 | an entry covers a host exactly when some item of its list names it, by name, pattern or hash, and no negated item does |
| KnownHosts.HitExactly | src/transport/known-hosts.ts:119-137 | an item speaks for a host exactly when it is the hash of its name, or describes it and has no `!`; against it exactly when what follows a `!` describes it |
| KnownHosts.GlobExactly | src/transport/known-hosts.ts:100-108 | a pattern matches exactly the values made of one piece for each character of it: a run on one line for `*`, one such character for `?`, and itself in either case for any other |
| KnownHosts.KeyExactly | src/transport/known-hosts.ts:156-168 | a stored key is the presented one exactly when it is its base64 text, or spells its bytes in hexadecimal in either case |
| KnownHosts.VerifyAgainstKnownHosts | src/transport/known-hosts.ts:149-171 | the loop with its early returns computes the verdict of the entries that hold a key for the host |
| KnownHosts.JudgeMeans | src/transport/known-hosts.ts:159-170 | a key matches exactly when the first entry that holds it is not revoked, and is unknown exactly when no entry is for the host |
| KnownHosts.RevokedRefusedExactly | src/transport/known-hosts.ts:147-167 | a key that some entry revokes is refused exactly when the first entry that holds it is a revocation |
| KnownHosts.WithoutHost | src/transport/known-hosts.ts:188-201 | the loop keeps, in order and verbatim, the lines that do not cover the host |
| KnownHosts.KeptSublist | src/transport/known-hosts.ts:192-198 | a line is kept exactly when it is in the file and does not cover the host |
| KnownHosts.RemovedHostIsUnknown | src/transport/known-hosts.ts:188-201 | after a removal every key presented for the host is unknown |
| KnownHosts.RemovalIdempotent | src/transport/known-hosts.ts:188-201 | removing a host twice is removing it once |
| KnownHosts.OtherHostKeepsVerdict | src/transport/known-hosts.ts:188-201 | a host none of whose host-key entries was dropped keeps its verdict for every key |
| HostTrust.KnownHostsFile.VerifyHostKey | src/transport/ssh.ts:445-474 | accepts a matching key, rejects a changed one or one without a type, and accepts and records an unknown one, appending exactly its line |
| HostTrust.KnownHostsFile.ForgetHost | src/transport/known-hosts-file.ts:15-28 | rewrites the file without the host's lines, and says whether that changed it |
| HostTrust.AppendedRelevant | src/transport/known-hosts.ts:209-211 | in a file that ends in a newline, an appended line changes what is on file for its own host only |
| HostTrust.FirstUseRemembered | src/transport/ssh.ts:462-473 | a key accepted on first use matches afterwards exactly when its type is one word |
| HostTrust.StaysTerminated | src/transport/known-hosts.ts:188-211 | the file still ends in a newline, or is empty, after an append or a removal |
| HostTrust.TrustOnFirstUse | src/transport/ssh.ts:441-474 | from a file with nothing on a host, all keys a run accepts for it until it is forgotten are one key; that key then matches and every other is a mismatch |
| HostTrust.TrustSinceForgotten | src/transport/known-hosts-file.ts:15-28 | over a run that forgets the host, from any file, all keys accepted since are one key, which alone matches at the end; with none the host is unknown |
| HostTrust.RevokedYetMatches | src/transport/known-hosts.ts:147 | a file that records a key and revokes it on the next line still matches it |
| HostTrust.HostEntriesApart | src/transport/known-hosts.ts:42-44 | two hosts that are not written in brackets have one entry exactly when host and port are the same |
| HostTrust.HostEntryIsPlain | src/transport/known-hosts.ts:42-44 | the entry of a plain host is a word a line can hold, on any port, which is what the trust results ask of it |
| Files.RenameCarries | src/openclaw/restore.ts:7-11 | a rename to an unused place takes the whole subtree and leaves nothing behind |
| Files.RenameSpares | src/openclaw/restore.ts:7-11 | a rename leaves every subtree apart from both ends as it was |
| Files.RenameOut | src/openclaw/restore.ts:102-104 | renaming out of a directory leaves that directory without exactly what was moved |
| Files.RenameBack | src/openclaw/restore.ts:122-126 | renaming to an unused place and back changes nothing |
| Restore.NamesApart | src/openclaw/restore.ts:107-110 | the live, preserved, holding and failed names neither coincide nor nest, exactly when the directory is not itself called `.clawops-restored-` and the stamp |
| Restore.RefusedManifests | src/openclaw/restore.ts:41-63 | a manifest is refused exactly when it cannot be read, or its schema is not 1, or it names no root or no directory, and each refusal is given for its own reason |
| Restore.OnlySlashesGo | src/openclaw/restore.ts:65-71 | what is dropped from the front of the manifest's directory is its slashes, and all of them |
| Restore.LocatedBelow | src/openclaw/restore.ts:65-71 | the state adopted is where the bundle, the manifest's root, `payload/posix` and the manifest's directory lead one after another, even when that directory is named by an absolute path |
| Restore.LocatedInside | src/openclaw/restore.ts:65-71 | that walk stays in the bundle exactly when no prefix of it has more `..` than names; where the bundle's own name is not in it, that is exactly when it ends in the bundle |
| Restore.ManifestEscapes | src/openclaw/restore.ts:60-71 | a manifest whose directory is `../../../../etc` is adopted, from `etc` beside the bundle |
| Restore.Host.Move | src/openclaw/restore.ts:93-97 | a move renames the subtree, or is refused and changes nothing |
| Restore.Host.ActivateRestored | src/openclaw/restore.ts:105-138 | at every instant the former and the restored tree are each whole at a known name; it ends in success exactly when the staging directory is there, every rename of the swap can happen and the gateway comes up, and each failure exactly when its own rename is the first refused, the ones after the start only with a gateway that did not come up; nothing else on the host changes |
| Restore.Host.Swap | src/openclaw/restore.ts:122-138 | the two renames, undone exactly when the second or first is refused, and the start that follows; it succeeds exactly when both can happen and the gateway comes up |
| Restore.Host.RollBack | src/openclaw/restore.ts:139-177 | a gateway that does not come up gives the former tree back and keeps the restored one, or says which rename was refused |
| Restore.Host.ActivateStaged | src/openclaw/backup-flows.ts:292-348 | a refused chown changes nothing; otherwise both trees are whole at every instant, the bundle's removal included, nothing else changes, and after success the restored tree is live and the former one whole under its preserved name |
| Restore.BundleIsElsewhere | src/openclaw/backup-flows.ts:170-177 | the bundle, named by a number, never meets the names stamped with a date, and a place in it that is named without climbing is never at or above the state directory |
| Restore.ClimbingMeetsTheState | src/openclaw/restore.ts:68-71 | one step up from the bundle and down again is the state directory, so that condition is needed |
| Tailnet.Stack.CutOverToTailnet | src/harden/flows.ts:32-77 | the steps of a cutover, in order, with what each refusal leaves; when it completes, and what it leaves then |
| Tailnet.CutOverCompletes | src/harden/flows.ts:32-77 | a cutover completes exactly when the old address answers, the host is on a tailnet that runs and gave keys, the stack is in the config, and this machine reaches the tailnet address with a key read or on file; then the override names it, unmarked, and the keys are on file for it and nothing else changed |
| Tailnet.Stack.RevertTailnet | src/harden/flows.ts:88-165 | the steps of a revert, in order, with what each refusal leaves; when it completes, and what it leaves then |
| Tailnet.RevertCompletes | src/harden/flows.ts:88-165 | a revert completes exactly when there is an override, the public address answers and the host leaves; each other result has its own condition; then the host is on no tailnet and the override and the pins of its address are gone |
| Tailnet.Stack.ApplyPlan | src/plan/apply.ts:79-106 | the guard, the update and the record of an apply, in order, with what each failure leaves; it completes exactly when a private-only plan is safe, nothing stops it and the update succeeds, and then the plan's rules have been set and are in force and a listed override is marked as the plan says |
| Tailnet.ApplyCompletes | src/plan/apply.ts:79-106 | an apply completes exactly when, for a private-only plan, its rules are none, it names the override's address, the stack is deployed and that address answers with its pinned key, and nothing stops the update and it succeeds; it is refused exactly when a private-only plan is not so |
| Tailnet.NeverLockedOut | src/plan/private-only.ts:10-13 | at every point of every run of cutovers, applies and reverts on a steady network, the address clawops uses answers |
| Tailnet.StepStaysSound | src/harden/flows.ts:24-31 | a step keeps the address in use reachable, and the override's address pinned to the host's own key, exactly when it is not an update to ordinary rules that shut this machine out of a stack without an override, nor a logout whose session died after the host left |
| Tailnet.LostLogoutMends | src/harden/flows.ts:138-145 | after such a logout the public address still answers, and reverting again puts the stack right |
| Tailnet.MarkKeptExactly | src/harden/flows.ts:53-66 | the private-only mark goes on agreeing with the ports exactly when the step is not a cutover that completes with the ports closed, an ordinary update that closes them, or one that fails after opening or closing them |
| Tailnet.ReopenIsSaidInRuns | src/harden/flows.ts:117-136 | over any run without such a step, a revert says to reopen the ports exactly when they are closed |
| Tailnet.RefusedChangesNothing | src/harden/flows.ts:79-87 | a step that does not complete leaves the override as it was; membership too, unless a logout died on the way, and the rules too, unless an update failed after setting them |
| Tailnet.PortsCloseAfterTheTailnetAnswers | src/plan/private-only.ts:86-114 | a private-only apply sets rules, always none, only after the override's address, which the plan names, has answered |
| Tailnet.LogoutAfterThePublicAnswers | src/harden/flows.ts:117-145 | a host leaves its tailnet only in a revert, right after its public address answered, and the revert completes or lost its session there |
| Tailnet.RecordedAfterTheTailnetAnswers | src/harden/tailscale-cutover.ts:89-127 | an override is recorded only for the host's own tailnet address, after it answered, with the keys read over the old connection pinned to it |
| Tailnet.RevertUndoesCutover | src/harden/flows.ts:138-155 | a cutover whose conditions hold completes, and a revert after it gives back the override, the rules and the pins there were before |
| Tailnet.SecondCutoverForgetsClosedPorts | src/harden/flows.ts:53-66 | a second cutover of a private-only stack drops its mark, and a refused revert no longer says to reopen the ports |
| Images.ImageVersionExactly | src/openclaw/migrate.ts:63-69 | an image names a release exactly when it is a repository, a colon, that release and perhaps a variant, with a registry's port not taken for a tag |
| Images.DateExactly | src/openclaw/migrate.ts:67 | the date of a release is four digits and two runs of digits with dots between |
| Images.LastPartExactly | src/openclaw/migrate.ts:64 | the last part of an image is what follows its last slash, or all of it |
| Migration.Host.Migrate | src/openclaw/migrate.ts:87-141 | each outcome is given exactly by the host's replies: nothing to migrate, already current, refused, failed, and migrated with one start or two, where the reply that found the gateway up is named, all others before it did not and none was lost; the identity is compared between the second reply and the last; the steps always come in one order; an early answer touches nothing; the 1.x state is whole at every instant, and its container removed at most once and only after pull, backup and extraction |
| Migration.LeftExactly | src/openclaw/migrate-flow.ts:117-138 | after a migration the 1.x container is gone exactly when it was removed or a start cleared the name, and a 2.0 one is there exactly when docker made it with the name free and it stayed |
| Migration.Host.Replace | src/openclaw/migrate.ts:143-176 | the same from the removal on, with the identity compared before and after, and the containers that the removal and the starts left |
| Migration.Host.StartAndGate | src/openclaw/migrate.ts:148-157 | one start and an open gate, or a second start and the gate that decides, as the replies say |
| Migration.Host.Extract | src/openclaw/migrate-flow.ts:94-103 | a copy that succeeds brings all of the state to the host with the container untouched; one that fails leaves the container whole |
| Migration.Host.RemoveSource | src/openclaw/migrate-flow.ts:117-123 | the container is stopped and removed at most once, only after pull, backup and extraction, whatever the commands exit with |
| Migration.Host.Gate | src/openclaw/migrate-flow.ts:140-169 | open exactly when some reply among sixty is ok and says something, after none that was, none lost, no abort and fewer than fifteen that said anything; given up exactly at sixty replies, at fifteen that said something, or at an abort |
| Upgrade.PublishForRestart | src/openclaw/runtime.ts:301-319 | the search over the bindings answers `all` exactly when some port is published without an address, or at 0.0.0.0 or :: |
| Upgrade.ScopeComesBack | src/openclaw/runtime.ts:147-149 | what a restart reads off a container is the scope whose publish flag it was run with, read as docker reads the flag's text |
| Upgrade.RollbackRunsTheSameImage | src/openclaw/run-flags.ts:82-84 | rolling back to the version read off an image runs that image exactly when it is the project's own repository with a plain tag |
| Upgrade.VersionIsTag | src/openclaw/run-flags.ts:82-84 | the version read off an image with a colon is what stands between its first colon and the next, or its end |
| Upgrade.DatabaseStepExactly | src/openclaw/upgrade.ts:28-73 | when the preflight reads the schemas right, the release left running after an update or a restart understands the database exactly when the update did not put an older release back after the target had migrated it |
| Upgrade.NeverFromTheFuture | src/openclaw/upgrade.ts:28-30 | over any run of updates and restarts without such a rollback, no release is given a database newer than it understands |
| Upgrade.GateOpens | src/openclaw/gateway-ops.ts:212-223 | a gate opens exactly when one of its fifteen probes is up with nothing aborted before it |
| Upgrade.ReplacedOnlyWhenSafe | src/openclaw/gateway-ops.ts:131-197 | the container is replaced only after the pull, a snapshot that was taken and a preflight that accepts |
| Upgrade.RunsExactly | src/openclaw/gateway-ops.ts:131-197 | something is run exactly when the image was pulled, a snapshot taken and its report has both schema numbers with the database's not the newer; otherwise the container is as it was and the result is one of the refusals |
| Upgrade.OutcomeIsAsked | src/openclaw/upgrade.ts:199-222 | the last gate opened exactly when the outcome claims that an image is running, and that image is the last one docker was asked for |
| Upgrade.OutcomeIsBacked | src/openclaw/upgrade.ts:199-222 | what the outcome claims is running is: always for `started`, for `repaired` exactly when the second run did not end with the target removed and not made again, for `rolled-back` to another version exactly when docker made that container and the target was out of its way; where it is not, there is no container, or the target still |
| Upgrade.UpdateIsBounded | src/openclaw/upgrade.ts:199-222 | at most three runs, three gates and one repair |
| Upgrade.UpdateEndsExactly | src/openclaw/upgrade.ts:199-222 | an update ends in `started`, `repaired`, rolled back to a version, or not recovered, each exactly when its gates came up or not and a readable image gave a version to go back to; a repair is made exactly when the first gate stays shut |
| Upgrade.StopsExactly | src/openclaw/gateway-ops.ts:131-196 | the pull, the snapshot or the preflight is what stopped an update exactly when it is the first of them that was not good |
| Upgrade.StartFailureIsNotRolledBack | src/openclaw/gateway-ops.ts:197-205 | an update ends in a start failure exactly when it gets as far as its first run and that fails, and then leaves no container, or the old one where it could not be removed |
| Upgrade.ScopeKeptExactly | src/openclaw/runtime.ts:263-273 | an operation keeps a container's scope exactly when it was loopback, was read, or the operation did not get as far as removing the container |
| Upgrade.NeverWidens | src/openclaw/runtime.ts:301-319 | over any run of updates and restarts nothing becomes reachable from everywhere that was not |
| Upgrade.NeverChanges | src/plan/remote-config.ts:156-167 | over any run in which the inspects are answered, a container that stays there keeps its scope |
| Upgrade.RestartsKeepTheImage | src/plan/remote-config.ts:145-151 | restarts never change the image |
| Upgrade.RestartExactly | src/plan/remote-config.ts:133-191 | what a restart leaves and whether it throws, for every reply of the host: nothing changes where the image is not read or the old container stays, and none is left where docker does not make the new one |
| Upgrade.Gateway.ResolveUpgrade | src/openclaw/upgrade.ts:199-222 | gate, repair, run, gate, roll back, gate: the order, and the container each ending leaves |
| Upgrade.Gateway.UpdateGateway | src/openclaw/gateway-ops.ts:121-244 | the order of an update's effects, and the container and result each failure leaves |
| Upgrade.Gateway.RestartGateway | src/plan/remote-config.ts:133-191 | a restart succeeds exactly when the image is read, the old container goes, docker makes the new one and one of fifteen probes finds it up with every earlier one down; then, or as soon as docker made it, the container has the image and the scope that were read |
| Shell.LexQuoted | src/transport/privileged.ts:30-32 | a shell reads a quoted text back as that text, whatever is in it (section 2.2.2 of the POSIX.1-2017 Shell Command Language) |
| Shell.SudoWrapReads | src/transport/privileged.ts:35-37 | a wrapped command reads as five words, the last of them the command as written |
| Shell.ClearLineArrives | src/hostagent/operator.ts:29-31 | through the outer shell and the privileged one, the line to append comes out unchanged and nothing in it is read as syntax |
| Shell.HandoffReads | src/hostagent/handoff.ts:87-89 | a handoff command reads as the program and its arguments, with the placeholder as two redirections |
| Shell.HandoffIsItsArguments | src/hostagent/handoff.ts:20-26 | pasted unedited, a handoff command gives the program exactly its arguments when and only when none is the placeholder |
| Shell.HandoffInjective | src/hostagent/handoff.ts:80-89 | equal handoff commands are for equal arguments, placeholders included |
| Shell.UnquotedExactly | src/hostagent/handoff.ts:18-26 | an argument is shown as it is exactly when it is the placeholder, or is not empty and all letters, digits and `._/:=@,+%^-` |
| HandoffLog.ReadIn | src/hostagent/handoff.ts:154-171 | the loop collects the requests in order, and for each command the latest clear |
| HandoffLog.LineExactly | src/hostagent/handoff.ts:155-170 | a line is a clear exactly when it is dated and names what is cleared, and a request exactly when it is dated, clears nothing and names a command |
| HandoffLog.ParseHandoffs | src/hostagent/handoff.ts:151-179 | the result is, in order, exactly the requests not lapsed and not cleared at or after their own date |
| HandoffLog.PendingExactly | src/hostagent/handoff.ts:172-178 | a request is on the list exactly when it was made in the last seven days and no clear of its command is dated then or later |
| HandoffLog.AppendedLine | src/hostagent/handoff.ts:166-177 | a new line hides exactly the requests for its own command made no later, and brings none back |
| HandoffLog.NeverBack | src/hostagent/handoff.ts:172-178 | a request off the list stays off, whatever is appended and however long it is |
| HandoffLog.CarriedOut | src/hostagent/operator.ts:79-83 | carrying out a request clears the requests for the same arguments, made no later, and no other |
| Merging.DeepMerge | src/plan/remote-config.ts:224-247 | the recursive loop computes the merge, key by key in any order |
| Merging.MergeAt | src/plan/remote-config.ts:223-247 | at every path the overlay wins unless both sides are objects, which merge; what it does not set survives unless something above it was replaced |
| Merging.EmptyOverlay | src/plan/remote-config.ts:224-247 | an empty overlay changes nothing |
| Merging.MergeIdempotent | src/plan/remote-config.ts:224-247 | laying the same overlay on twice is laying it on once |
| Merging.ModeCheckSpeaksForTheHost | src/plan/validate.ts:83-100 | an overlay keeps `gateway.mode` over the stand-in config exactly when it keeps it over every remote config that has it |
| Merging.HasModeMeans | src/openclaw/config-validate.ts:104-120 | the contract holds exactly when `gateway` is an object with a `mode` |
| Merging.ChannelsMerge | src/plan/apply.ts:226-232 | a remote channel that the plan does not name stays |
| Redaction.RedactAt | src/mcp/audit.ts:102-115 | at every path shape and scalars stay, but for the strings at secret-named paths that are neither references nor inside one, each of which is replaced |
| Redaction.SensitiveExactly | src/mcp/audit.ts:45-55 | a name is a secret's exactly when one of seven words is in it, in any case, and it is none of the four exempt ones |
| Redaction.EnvRefExactly | src/mcp/audit.ts:75 | a string is a reference exactly when it is `${name}` with a name of letters, digits and underscores that begins with no digit |
| Redaction.SecretRefExactly | src/mcp/audit.ts:91-95 | an object is a pointer exactly when it has a source and an id, perhaps a provider, and nothing else |
| Redaction.RedactionKernel | src/mcp/audit.ts:78-93 | two configs redact alike exactly when they differ only in strings hidden in both |
| Redaction.RedactIdempotent | src/mcp/audit.ts:90-93 | redacting twice is redacting once |
| Redaction.PartShownAsInWhole | src/mcp/audit.ts:58-89 | a part of a config asked for by its dotted path is shown as it is in the whole, unless a pointer in a secret place stands above it |
| Guardrail.PrefixPattern | src/hostagent/guardrail.ts:52-55 | a literal prefix and a star match exactly the one-line values with that prefix |
| OperatorOnly.PassesExactly | src/hostagent/guardrail.ts:199-318 | there is no failure exactly when, by the settings themselves, the agent is a separate one that no other routing key names, its bindings are direct conversations with listed operators on channels whose policy in force keeps strangers out, agent-to-agent access and session visibility leave it out, every other agent and none but the others is denied every clawops tool, and under strict the settings exclude every container tool |
| OperatorOnly.FailureExactly | src/hostagent/guardrail.ts:199-318 | each kind of failure, about each path, binding, channel, account and agent, is reported exactly when the settings themselves are wrong in the way that it names |
| OperatorOnly.RoutesExactly | src/hostagent/guardrail.ts:85-100 | a route is reported exactly when a path of the config, leading into nothing that prints as `bindings` or `agents.entries`, ends at a routing key whose string is the agent's id in any case |
| OperatorOnly.UnwalkedExactly | src/hostagent/guardrail.ts:93-94 | where every key is plain, what is skipped is exactly the bindings and the agent roster |
| OperatorOnly.DottedKeyHides | src/hostagent/guardrail.ts:93-96 | a routing key under a top-level key called `agents.entries` is not reported |
| OperatorOnly.ContainerToolsExactly | src/hostagent/guardrail.ts:139-170 | a container tool is counted for an agent exactly when its settings and the gateway's do not exclude it: no provider's or sender's policy grants it, and it is denied, or neither added nor in the list or profile in force |
| OperatorOnly.NamesExactly | src/hostagent/guardrail.ts:119-136 | an entry names a tool exactly when it is `group:fs` and the tool is one of its four, `group:runtime` and one of its two, another group than `group:openclaw` where unmeasured groups count, or a pattern that matches it |
| OperatorOnly.GlobExactly | src/hostagent/guardrail.ts:53-57 | a pattern matches exactly the values that it becomes with a run on one line put in for each of its stars |
| Guardrail.UsesExactly | src/hostagent/guardrail.ts:230-256 | a binding is accepted exactly when it is a direct conversation with one of the operators and not an ACP one |
| Guardrail.PlannedDenies | src/hostagent/install.ts:129-149 | the loop writes the deny of every other agent that lacks one, and reports exactly those |
| Guardrail.CheckGuardrail | src/hostagent/guardrail.ts:199-321 | the loops over bindings, channels and agents compute exactly the failures of the six conditions |
| Guardrail.JudgeBindings | src/hostagent/guardrail.ts:220-257 | each of the agent's bindings is the operator's direct messages on a channel and account, or a failure |
| Guardrail.JudgeChannels | src/hostagent/guardrail.ts:259-274 | a failure for each channel and account in use whose policy would let a stranger in |
| Guardrail.OthersThatCall | src/hostagent/guardrail.ts:307-313 | a failure for each other agent whose deny does not cover every clawops tool |
| Guardrail.ContainerReach | src/hostagent/guardrail.ts:178-197 | a failure for each other agent that may be offered a tool inside the container |
| Guardrail.DeniesChangeOnlyTheirCondition | src/hostagent/install.ts:125-149 | the edit leaves every failure of another condition as it was, strict or not, and of condition 5 exactly those of entries that are not objects; the host agent's entry stays |
| Guardrail.ReachUnmoved | src/hostagent/guardrail.ts:150-170 | the added deny changes no agent's container tools |
| Guardrail.DeniesOnce | src/hostagent/install.ts:129-149 | a second edit adds nothing |
| ConnectionPool.Pool.AcquireStart | src/transport/pool.ts:67-89 | reuses the first idle session, refuses at four, or waits on the array it read |
| ConnectionPool.StartExactly | src/transport/pool.ts:67-89 | an acquire takes the first idle session under its key exactly when there is one, is turned away exactly when there is none and four are open, and connects otherwise |
| ConnectionPool.Pool.AcquireFinish | src/transport/pool.ts:91-104 | a failed connection changes nothing; a new session joins the array read before, which becomes the key's |
| ConnectionPool.Pool.ReleaseSession | src/transport/pool.ts:97-103 | a release marks the session idle at that moment and gives it up, and changes no other |
| ConnectionPool.Pool.Cleanup | src/transport/pool.ts:30-45 | closes exactly the pooled sessions idle for over five minutes, and keeps the others in order |
| ConnectionPool.ReleasedIsClosedExactly | src/transport/pool.ts:33-39 | a pooled session that was released is closed by a cleanup exactly when more than five minutes have passed since, and otherwise stays pooled and idle |
| ConnectionPool.Pool.Drain | src/transport/pool.ts:108-114 | closes every pooled session and empties the pool |
| ConnectionPool.NeverSharedInAnyRun | src/transport/pool.ts:59-105 | in every interleaving no session is held by two callers |
| ConnectionPool.CleanupSparesHeld | src/transport/pool.ts:33-39 | a cleanup closes no session that is held |
| ConnectionPool.TidyInAtomicRuns | src/transport/pool.ts:84-95 | with acquires that nothing interrupts, no key has more than four sessions, nor a closed one |
| ConnectionPool.FinishTidyExactly | src/transport/pool.ts:91-95 | a finishing acquire keeps that exactly when the array it read is still short of the limit, free of closed sessions and no other key's |
| ConnectionPool.LimitExceeded | src/transport/pool.ts:84-95 | for any number there is a run that ends with more than that many open sessions in use under one key |
| ConnectionPool.PooledInAtomicRuns | src/transport/pool.ts:66-95 | with acquires that nothing interrupts, every open session is in the pool |
| ConnectionPool.FinishPoolsExactly | src/transport/pool.ts:91-95 | a finishing acquire keeps that exactly when no open session is in the array its key had, unless it is in the one that takes its place or under another key |
| ConnectionPool.SessionLeaks | src/transport/pool.ts:67-95 | two first acquires for one key that overlap leave an open session that the pool has lost |
| ConnectionPool.LeakedForever | src/transport/pool.ts:30-45 | whatever runs afterwards, such a session is never closed or pooled again |
| ConnectionPool.ClosedSessionHandedOut | src/transport/pool.ts:67-95 | a run in which a waiting acquire and a drain lead to a closed session being handed out |
| Fleet.FleetStatus | src/hostagent/fleet-status.ts:258-267 | with reads answered in any order, every index is claimed once and every answer is filed under its own; nothing is read for a limit below one |
| Fleet.EveryScheduleInStep | src/hostagent/fleet-status.ts:259-267 | at every point of every schedule at most as many reads are outstanding as there are workers, and answered, outstanding and unclaimed indices are apart |
| Fleet.SplitSections | src/hostagent/fleet-status.ts:49-62 | the loop over the lines computes the sections, and nothing without a config section |
| Fleet.SectionTextExactly | src/hostagent/fleet-status.ts:49-62 | whatever was printed, a section's text is the lines from its last marker to the next marker of any kind |
| Fleet.SectionThereExactly | src/hostagent/fleet-status.ts:49-62 | a section is there exactly when some line marks it |
| Fleet.SectionsComeBack | src/hostagent/fleet-status.ts:32-62 | what the script prints splits back into each section's own text and one newline, when no line of it looks like a marker |

## Left out

- Number(): a prefix length is decimal digits or white space; the hexadecimal, fraction and exponent spellings JavaScript also reads are not modelled, and so not counted as zero in `Addresses.CoversFamilyExactly`, nor as a length in `Addresses.NamesExactly`.
- PeerPolicy.CheckReturns: gives a condition on the texts under which nothing raises; a check can also return with such a text in it, where it never gets as far as reading it.
- Upgrade.DatabaseStepExactly: counts every release that docker created as having migrated the database, and takes schema numbers per image as a parameter.
- Case folding: `toLowerCase` and the case-insensitive patterns are ASCII; characters outside the basic plane count as one where JavaScript counts two.
- JSON, YAML, zod and ajv parsing, HMAC and dates: the model starts from parsed trees and records, and takes the two functions as arbitrary ones.
- Keys such as `__proto__`, which JavaScript objects inherit: maps hold the keys they hold.
- Restore.Host.ActivateRestored: does not model what the gateway, still running during the renames, may write to its directory; only what a started one leaves.
- Restore.LocatedInside: resolves names as text, so symbolic links inside the bundle are not followed.
- Migration.Host.Migrate: takes the comparison of two releases as an arbitrary one, and the state of the 1.x container as fixed while it is copied.
- Tailnet.NeverLockedOut: assumes a network that does not change during a run, and runs without the two kinds of step that lose the host; rejoining a tailnet is one step, without the hardening run that does it.
- Upgrade.RestartsKeepTheImage: says nothing about ports, which a restart does not preserve; hosts supervised by systemd or macOS are not modelled apart from docker.
- ConnectionPool.NeverSharedInAnyRun: each caller gives back what it holds once; the cleanup's timer and the host agent's local session are not modelled.
- Guardrail.CheckGuardrail: the failures are a set of what each message names, not their wording or order; the list of clawops tools is a parameter.
- Fleet.FleetStatus: assessing one host and cross-checking the hosts against each other are left out.
- Backup uploads, plugin and channel installation, plan generation, cloud providers, the MCP servers and the command line: input and output around the code modelled here.
