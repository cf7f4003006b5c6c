# Puppet file-attribute plug-ins, modelled in Dafny

This project models the logic of three small Puppet plug-ins and proves properties of that model:

- **`noxdir`** is a resource type that manages a directory's owner, group and mode, including modes without the search bit. The model covers:
  - the identity key it gives a path (`self.[]`);
  - the lazily filled stat memo (`@stat`);
  - the owner and group properties, which resolve names to ids in place when evaluated;
  - the mode property, wired to Puppet's symbolic-mode helpers;
  - the display rules;
  - the autorequire rules.
- **`fileperms`** checks a file against a maximum permission mask. It never changes the file: on non-compliance it only logs a warning. The model covers the type's parameter validation and the `ruby` provider's bit-mask test.
- **`resource_statuses`** is a report. It labels every resource of a run *Up to date*, *Updated* or *Failed* and gathers the labels in a map keyed by resource name.

Modules, one per component:

- `Wrappers`: `Option` stands for Ruby's nil, `Result` for a raised exception.
- `Octal`: `String#to_i(8)`, `Integer#to_s(8)` and `String#rjust`.
- `NoxdirPath`: the path key.
- `NoxdirStat`: the resource class `NoxDir` with its stat memo, and the type's `validate`.
- `NoxdirPrincipal`: the owner and group properties, as one class `PrincipalProperty` with a `kind`.
- `NoxdirMode`: the mode property, as a class `ModeProperty` over a `NoxDir`.
- `NoxdirAutorequire`: the autorequire rules.
- `FilepermsProvider`: the provider, with 32-bit modes.
- `FilepermsType`: the type's validation.
- `ResourceStatuses`: the report.

External inputs become parameters:

- What `File.stat` answers is a `StatOutcome`: a stat, ENOENT, EACCES, or any other Errno. Any other Errno propagates, and the memo stays at `:needs_stat`.
- The provider's `name2uid`/`name2gid` and `uid2name`/`gid2name` lookups are maps. A key missing from the map is a failed lookup.
- `Puppet.features.root?`, `posix?` and `microsoft_windows?` are booleans.
- The catalog's `file` resources are a set of paths.
- `valid_symbolic_mode?`, `normalize_symbolic_mode` and `symbolic_mode_to_int` are uninterpreted functions, held in a `SymbolicFileMode` value.
- Log messages are ghost counters and flags, or a `warnings` sequence.

Three points of the source are easy to misread; the model follows the code:

- The mode property's documentation says that numeric modes for directories get the search bit wherever the read bit is set (`noxdir/lib/puppet/type/noxdir.rb` lines 142-144), and that `0464` is not an acceptable mode on Windows (lines 174-176). No code in the type enforces either rule. Such a rule could only live in the SymbolicFileMode helpers, or in the provider's mode setter that `sync` reaches through `set` (line 213). Neither of those is part of this model: the helpers are uninterpreted here and the provider is not modelled.
- `sync` takes the current mode from `@resource.stat` (line 212), which is the memoised stat, not a new read of the disk. It reflects the disk only when the resource has not been stat-ed yet (`initialize` sets `:needs_stat`, line 30) or after the memo has been reset to `:needs_stat`. `ModeProperty.Sync` therefore goes through the memo.
- At line 197, `is_a_directory = @resource.stat and @resource.stat.directory?` parses as `(is_a_directory = @resource.stat) and …`, because `and` binds looser than `=`. The flag handed to `symbolic_mode_to_int` is the stat object itself, so it is truthy for every path that could be stat-ed, directory or not. `DirectoryFlag` models this as written.

## Model

| member | source | states |
|---|---|---|
| NoxdirPath.CollapseSlashes | noxdir/lib/puppet/type/noxdir.rb:272 | the `gsub` result has no two adjacent slashes, is no longer than its input, and keeps the input's first and last character |
| NoxdirPath.StripTrailingSlash | noxdir/lib/puppet/type/noxdir.rb:272 | the `sub` removes exactly one final slash; the string is unchanged exactly when it does not end in a slash |
| NoxdirPath.Key | noxdir/lib/puppet/type/noxdir.rb:272 | a normalised path has no `//` and does not end in `/` |
| NoxdirPath.Lookup | noxdir/lib/puppet/type/noxdir.rb:270-273 | nil stays nil; a path is looked up under a key with no `//` and no trailing `/` |
| NoxdirPath.CollapseKeepsNonSlash | noxdir/lib/puppet/type/noxdir.rb:272 | collapsing removes only slashes: the non-slash characters and their order are unchanged |
| NoxdirPath.CollapseFixpoint | noxdir/lib/puppet/type/noxdir.rb:272 | collapsing leaves a string unchanged if and only if it has no double slash |
| NoxdirPath.KeyIdempotent | noxdir/lib/puppet/type/noxdir.rb:270-273 | normalising a normalised path changes nothing |
| NoxdirPath.RootKey | noxdir/lib/puppet/type/noxdir.rb:272 | `/`, `//` and any run of slashes normalise to the empty string |
| NoxdirPath.DoubledSlashSameKey | noxdir/lib/puppet/type/noxdir.rb:272 | doubling a slash anywhere in a path does not change its key |
| NoxdirPath.TrailingSlashSameKey | noxdir/lib/puppet/type/noxdir.rb:272 | appending a slash does not change a path's key |
| NoxdirStat.StatTransition | noxdir/lib/puppet/type/noxdir.rb:284-295 | from `:needs_stat`, one call consults the filesystem. A stat is cached and returned. ENOENT and EACCES are cached and returned as nil, and only EACCES warns. Any other Errno propagates and leaves `:needs_stat`. A cached memo is returned unchanged without consulting the filesystem |
| NoxdirStat.StatIsMemoized | noxdir/lib/puppet/type/noxdir.rb:279-285 | after one successful stat, a later call returns the same value, whatever the filesystem now says, and does not stat again |
| NoxdirStat.MissingAndDeniedCacheNil | noxdir/lib/puppet/type/noxdir.rb:287-294 | ENOENT and EACCES both leave nil in the memo; only EACCES logs the warning |
| NoxdirStat.NoxDir.constructor | noxdir/lib/puppet/type/noxdir.rb:28-31 | a new resource starts in `:needs_stat` with no stat performed |
| NoxdirStat.NoxDir.Stat | noxdir/lib/puppet/type/noxdir.rb:284-295 | the memo, the result and the count of filesystem calls and warnings move exactly as `StatTransition` says |
| NoxdirStat.NoxDir.Invalidate | noxdir/lib/puppet/type/noxdir.rb:281-283 | resetting to `:needs_stat` makes the next call stat again; the counters are unchanged |
| NoxdirStat.ValidateResource | noxdir/lib/puppet/type/noxdir.rb:264-268 | the resource is valid exactly when a path is given, and the error otherwise is "Path is a required attribute" |
| NoxdirPrincipal.FirstUnresolved | noxdir/lib/puppet/type/noxdir.rb:64-66 | the index at which `map!` raises: every earlier entry resolves, and the entry there does not |
| NoxdirPrincipal.InSyncDecision | noxdir/lib/puppet/type/noxdir.rb:68-75 | a listed current value is in sync; an unlisted one is in sync exactly when it is an owner and the process is not root (the group at line 112 has no exemption) |
| NoxdirPrincipal.PrincipalProperty.InSync | noxdir/lib/puppet/type/noxdir.rb:60-76 | the should-list is rewritten in place with ids, up to the first entry that does not resolve. That entry raises "Could not find user/group" and later entries are untouched. With all entries resolved, the result is "current is listed", or not root for the owner. The not-root warning is logged exactly in that exempt case. The group half is line 104-113 |
| NoxdirPrincipal.OwnerExemptionOnly | noxdir/lib/puppet/type/noxdir.rb:68-75 | a group is in sync exactly when listed; an owner is also in sync whenever the process is not root; group in sync implies owner in sync |
| NoxdirPrincipal.Display | noxdir/lib/puppet/type/noxdir.rb:79-85 | an id the reverse lookup knows is shown as its name, anything else as given (the group's `is_to_s`/`should_to_s` at lines 116-122 are the same rule) |
| NoxdirPrincipal.DisplayResolvesBack | noxdir/lib/puppet/type/noxdir.rb:79-85 | when every named id is found again under its name and a numeric id resolves to itself, what is displayed for any known id resolves back to that same id |
| NoxdirPrincipal.Validate | noxdir/lib/puppet/type/noxdir.rb:56-58 | an owner or group value is refused exactly when it is nil or the empty string (lines 100-102 for the group) |
| NoxdirMode.CurrentBits | noxdir/lib/puppet/type/noxdir.rb:196 | a String current mode is read with `to_i(8)`, an Integer is used as it is |
| NoxdirMode.DirectoryFlag | noxdir/lib/puppet/type/noxdir.rb:197 | the flag handed to the resolver is true exactly when there is a stat |
| NoxdirMode.DirectoryFlagIgnoresKind | noxdir/lib/puppet/type/noxdir.rb:197 | a regular file's stat and a directory's stat give the same, true, flag; no stat gives false |
| NoxdirMode.DesiredMode | noxdir/lib/puppet/type/noxdir.rb:195-198 | the desired mode is resolved against the current bits with a true directory flag whenever there is a stat, and a false one when there is none |
| NoxdirMode.Matches | noxdir/lib/puppet/type/noxdir.rb:201-206 | a nil current mode never matches; otherwise it matches exactly when its normalised form equals the octal string of the desired mode resolved against it |
| NoxdirMode.SyncTarget | noxdir/lib/puppet/type/noxdir.rb:212-213 | what `sync` sets is a canonical octal numeral: the desired mode resolved against the stat's mode with a true flag, or against 0644 with a false flag when there is no stat |
| NoxdirMode.SyncTargetResolves | noxdir/lib/puppet/type/noxdir.rb:211-214 | the value `sync` sets reads back as the desired mode resolved against the stat's mode with a true flag, or against 0644 with a false flag when there is no stat |
| NoxdirMode.Display | noxdir/lib/puppet/type/noxdir.rb:224-230 | a mode is left-padded with `0` to four characters; longer values are unchanged |
| NoxdirMode.DisplayKeepsMode | noxdir/lib/puppet/type/noxdir.rb:224-230 | the padded display of `to_s(8)` of a mode still reads back as that mode |
| NoxdirMode.Validate | noxdir/lib/puppet/type/noxdir.rb:179-183 | nil and valid symbolic or numeric modes are accepted, everything else is refused |
| NoxdirMode.Munge | noxdir/lib/puppet/type/noxdir.rb:185-193 | munge accepts exactly what validate accepts, keeps nil, and stores a valid mode normalised |
| NoxdirMode.ModeProperty.DesiredModeFromCurrent | noxdir/lib/puppet/type/noxdir.rb:195-199 | the resource is stat-ed through its memo, at most once; a stat error propagates; otherwise the result is the desired mode resolved against the current bits with the flag of `DirectoryFlag` |
| NoxdirMode.ModeProperty.PropertyMatches | noxdir/lib/puppet/type/noxdir.rb:201-206 | a nil current mode gives false without touching the memo; otherwise the memo moves once and the result is `Matches` of the stat |
| NoxdirMode.ModeProperty.Sync | noxdir/lib/puppet/type/noxdir.rb:211-214 | the first should value is re-resolved against the memoised stat's mode, or 0644 without a stat, and its octal string is what is set |
| NoxdirAutorequire.NearestFrom | noxdir/lib/puppet/type/noxdir.rb:239-240 | the `find` over ascending ancestors returns a catalog path that is a prefix, with no longer candidate in the catalog, or nothing when no candidate is in the catalog |
| NoxdirAutorequire.NearestAncestor | noxdir/lib/puppet/type/noxdir.rb:234-246 | none for the root; otherwise a proper ancestor in the catalog with no nearer proper ancestor in the catalog, or none when no proper ancestor is in the catalog |
| NoxdirAutorequire.AutorequireFile | noxdir/lib/puppet/type/noxdir.rb:234-246 | the requirement list holds at most one path, never the path itself, and it is `NearestAncestor` |
| NoxdirAutorequire.AutorequirePrincipal | noxdir/lib/puppet/type/noxdir.rb:249-262 | the first originally declared owner or group is required exactly when it is a name that is not all digits; an Integer, a digit string, an unset property or an empty list requires nothing |
| Octal.OctalPrefixLength | fileperms/lib/puppet/provider/fileperms/ruby.rb:7 | `to_i(8)` reads the longest run of octal digits at the front and stops at the first other character |
| Octal.ParseOctal | fileperms/lib/puppet/provider/fileperms/ruby.rb:7 | `to_i(8)` gives a number below 8 to the power of the octal prefix's length, and 0 when the string does not start with an octal digit (also used at `noxdir.rb` line 196) |
| Octal.LeftPad | noxdir/lib/puppet/type/noxdir.rb:225 | `rjust(4, "0")` gives a string of at least the width that ends with the value and is filled in front with the fill character |
| Octal.ToOctalString | noxdir/lib/puppet/type/noxdir.rb:204 | `to_s(8)` gives a non-empty octal numeral without leading zeros |
| Octal.ParseOctalOfToOctal | noxdir/lib/puppet/type/noxdir.rb:196-213 | `to_i(8)` reads back every number `to_s(8)` writes |
| Octal.ToOctalOfValue | noxdir/lib/puppet/type/noxdir.rb:204 | `to_s(8)` writes back every canonical numeral, so the two are inverse |
| Octal.ParseExample | fileperms/lib/puppet/provider/fileperms/ruby.rb:7 | perms `"0640"` reads as 416 |
| FilepermsProvider.Exists | fileperms/lib/puppet/provider/fileperms/ruby.rb:4-11 | a stat error propagates; otherwise the result is true exactly when the toggled stat mode has no bit outside the octal-read maximum |
| FilepermsProvider.FileMode | fileperms/lib/puppet/provider/fileperms/ruby.rb:6 | the xor with 0100000 flips only the regular-file bit, keeps every other bit, and is undone by flipping again |
| FilepermsProvider.MaxMode | fileperms/lib/puppet/provider/fileperms/ruby.rb:7 | a perms string whose octal value is below 2^32 gives exactly that value as the mask |
| FilepermsProvider.Compliant | fileperms/lib/puppet/provider/fileperms/ruby.rb:10 | `((f ^ m) & f) == 0` holds exactly when `f & ~m == 0`: no bit of the file mode lies outside the maximum |
| FilepermsProvider.CompliantBitwise | fileperms/lib/puppet/provider/fileperms/ruby.rb:9-10 | the check holds exactly when every bit set in the file mode is set in the maximum |
| FilepermsProvider.EqualModeComplies | fileperms/lib/puppet/provider/fileperms/ruby.rb:10 | a mode equal to the maximum complies |
| FilepermsProvider.CompliantMonotone | fileperms/lib/puppet/provider/fileperms/ruby.rb:10 | a mode that complies with a maximum complies with every bit-superset of it |
| FilepermsProvider.RegularFileMode | fileperms/lib/puppet/provider/fileperms/ruby.rb:5-6 | for a regular file, toggling 0100000 leaves exactly the permission bits |
| FilepermsProvider.DirectoryNeverCompliant | fileperms/lib/puppet/provider/fileperms/ruby.rb:5-6 | a directory keeps a type bit above the twelve permission bits, so it never complies with a maximum within them |
| FilepermsProvider.ShortPermsFit | fileperms/lib/puppet/provider/fileperms/ruby.rb:7 | a perms string of at most four characters gives a maximum within the twelve permission bits |
| FilepermsProvider.MaxModeExample | fileperms/lib/puppet/provider/fileperms/ruby.rb:7 | perms `"0640"` is the mask 0640 |
| FilepermsProvider.SudoersExample | fileperms/lib/puppet/provider/fileperms/ruby.rb:4-11 | against `"0640"`, a regular file with mode 0600 complies and one with mode 0777 does not |
| FilepermsProvider.Provider.Create | fileperms/lib/puppet/provider/fileperms/ruby.rb:14-17 | `create` appends the "Overly permissive permissions detected!" warning and leaves the file's mode as it was |
| FilepermsProvider.Provider.Destroy | fileperms/lib/puppet/provider/fileperms/ruby.rb:19-21 | `destroy` changes nothing |
| FilepermsType.FirstSlash | fileperms/lib/puppet/type/fileperms.rb:21 | the index of the first slash: everything before it is slash-free |
| FilepermsType.UncAbsolute | fileperms/lib/puppet/type/fileperms.rb:21 | the executable check agrees exactly with the `//host/share` pattern read as an existential over where the host ends |
| FilepermsType.UncMatchesPattern | fileperms/lib/puppet/type/fileperms.rb:21 | a match of the UNC pattern can only end its host at the first slash after `//` |
| FilepermsType.ValidatePath | fileperms/lib/puppet/type/fileperms.rb:20-24 | a path is accepted exactly when it matches one of the three forms. POSIX needs a leading `/`. Windows needs either one non-newline character then `:/`, or `//host/share`. Otherwise the error names the value |
| FilepermsType.NoPlatformRejects | fileperms/lib/puppet/type/fileperms.rb:21-23 | with neither platform flag every path is refused, and the message quotes the offending value |
| FilepermsType.UncAccepted | fileperms/lib/puppet/type/fileperms.rb:21 | `//host/share…` with a non-empty slash-free host and a share not starting with `/` is accepted on Windows, whatever follows |
| FilepermsType.UncRefused | fileperms/lib/puppet/type/fileperms.rb:21 | an empty host, a missing share or a share starting with `/` does not match the UNC form |
| FilepermsType.ValidateResource | fileperms/lib/puppet/type/fileperms.rb:31-35 | the resource is valid exactly when both path and perms are given |
| ResourceStatuses.Classify | resource_statuses/lib/puppet/reports/resource_statuses.rb:22-30 | *Up to date* exactly when nothing was out of sync; *Updated* exactly when something was and the change count equals it; *Failed* exactly otherwise. These are three exclusive, exhaustive cases |
| ResourceStatuses.Label | resource_statuses/lib/puppet/reports/resource_statuses.rb:24-29 | each status is written as exactly one of "Up to date", "Updated" and "Failed", and each of those labels is written for exactly one status |
| ResourceStatuses.LabelsDistinct | resource_statuses/lib/puppet/reports/resource_statuses.rb:24-29 | the three written labels are distinct, so a label identifies its outcome |
| ResourceStatuses.EntryFor | resource_statuses/lib/puppet/reports/resource_statuses.rb:33-37 | an entry copies title and tags unchanged and carries the classified status |
| ResourceStatuses.Collected | resource_statuses/lib/puppet/reports/resource_statuses.rb:16-38 | after the assignments every resource name is a key, and the last pair's name holds the entry built from the last status |
| ResourceStatuses.CollectedKeys | resource_statuses/lib/puppet/reports/resource_statuses.rb:16-38 | after the assignments, the collector's keys are exactly the resource names |
| ResourceStatuses.CollectedEntry | resource_statuses/lib/puppet/reports/resource_statuses.rb:33-37 | the entry under a name is built from the last status with that name |
| ResourceStatuses.Process | resource_statuses/lib/puppet/reports/resource_statuses.rb:16-38 | after the loop, the collector's keys are exactly the resource names, and each name's entry is built from its own status |
| ResourceStatuses.DistinctNamesEachOwnEntry | resource_statuses/lib/puppet/reports/resource_statuses.rb:19 | with distinct names, as in a Hash, every resource is the last one with its name, so it keeps its own entry |

## Left out

- Puppet's SymbolicFileMode helpers (`valid_symbolic_mode?`, `normalize_symbolic_mode`, `symbolic_mode_to_int`): their code is not part of this model, so they are uninterpreted functions. The chmod grammar, resolution, the search-bit rule and the `0464` rule of the mode documentation are not modelled.
- The mode property's `change_to_s` (lines 216-222) is not modelled. It builds the change message. A numeric desired mode goes straight to the framework's `super`. A symbolic one is resolved through `desired_mode_from_current`, and so through the stat memo, which may call `File.stat` the first time. As a message formatter it is outside the modelled core.
- The `path` parameter's `validate` in `noxdir`: it calls `Puppet::Util.absolute_path?`, a library function that is not part of this model.
- `self.instances` always returns the empty list; `newtype`, `ensurable` and property registration are framework plumbing.
- The filesystem: `File.stat` is an input. The report's `File.open`, `to_yaml` and `puts` are not modelled; only the collector map is.
- Logging (`warning`, `warnonce`) is recorded as ghost counters or flags, or as a `warnings` sequence. `warnonce`'s suppression of repeats is not modelled.
- Regular expressions: `^` and `$` are anchored at the ends of the string, not at line breaks inside it.
- `to_i(8)`: leading whitespace, a sign, underscores and a `0o` prefix are not modelled.
- `Pathname`: a path is a sequence of components below the root, and its ancestors are its proper prefixes. Drive letters, UNC roots and relative paths are not modelled.
- `catalog.resource(:file, …)` is membership in a set of paths.
- NoxdirMode.Matches and NoxdirMode.ModeProperty.PropertyMatches: only a String current mode is modelled (`Option<string>`). The source's only Integer current mode is the one `sync` builds at line 212, and that path is modelled through `ModeValue.Number` in `Sync` and `SyncTarget`.
- NoxdirPrincipal.PrincipalProperty.InSync: the current value is compared as a `Principal`; the text of the raised message is modelled as the `CouldNotFind` value it would name.
- NoxdirMode.ModeProperty.Sync: requires a non-empty should-list. Puppet only syncs a property that has a should value. With an empty list Ruby would pass nil to the resolver, which is not modelled.
- FilepermsProvider.Exists: modes are 32-bit. The maximum is the octal-read perms cut to 32 bits. This gives the same answer as Ruby's unbounded integers, because the bits above 32 are and-ed with zero bits of the file mode.
