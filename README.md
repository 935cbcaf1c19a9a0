# AndroSH core, modelled in Dafny

AndroSH installs an Alpine Linux sandbox on an Android device and launches it
through proot. This project models three parts of it:

- **The registry (`Core/db.py`, class `DB`).** It keeps the `done` flag and
  other settings in two SQLite tables. `data` maps a key to a value, and
  `subdata` maps a (parent key, sub-key) pair to a value. Here the two tables
  are two `map` fields of the class `Registry.DB`, and each method changes them
  as its SQL statements do, except where "## Findings" says otherwise. The pure module `RegistryTables` says what a whole
  `update` batch and a `fetchall` merge produce. JSON encoding is the identity
  on the `Values.Value` datatype.
- **The placeholder substitution (`Core/template.py`).** Each replacement is
  one `re.sub` of `\{\{\s*KEY\s*\}\}`, with the key escaped. The model runs the
  regular expression as Python's engine does: the first `\s*` is greedy and
  gives back one character at a time, the scan goes left to right, and it
  resumes after each match. The passes are folded over the replacements in
  order. The file system is a map from path to content.
- **The decision logic of `main.py` (class `AndroSH`).** This covers:
  - the machine table (`architecture`);
  - the asset table and its destinations (`assets`);
  - the command sequence and abort policy of `setup_sandbox`;
  - the checksum retry of `alpine_downloader`;
  - the step order of `setup`, ending with `db.setup()`;
  - the start-up choice in `__init__` between launching and setting up.

  The outside world is a parameter (`AndroSH.Env`): the machine id, the
  storage check, the answers of the download attempts, the command runner and
  the file system.

Files:

| file | contents |
|---|---|
| `wrappers.dfy` | `Option` and `Result` |
| `values.dfy` | the value datatype and Python truthiness |
| `registry_tables.dfy` | the tables as values, and the specification functions |
| `registry.dfy` | the class `DB` |
| `template.dfy` | the regex scanner, the fold and `template` |
| `androsh.dfy` | `main.py` |

## Model

| member | source | states |
|---|---|---|
| Registry.DB.constructor | Core/db.py:20-53 | Opening the database keeps the rows already stored, because each table is created only if it does not exist; `check()` right after opening reflects the stored `done` flag. A file that does not exist yet gives both tables empty. |
| Registry.DB.Check | Core/db.py:81-102 | `check()` is true iff a `done` row exists and its value is truthy in Python's sense; it is false when the row is absent. |
| Registry.DB.Setup | Core/db.py:104-130 | `setup(d)` upserts `done := d` and changes nothing else; afterwards `check()` answers `d`, and the foreign key still holds. |
| Registry.DB.Add | Core/db.py:158-185 | After `add(k, v)`, `get(k) == v`; every other key reads as before; no sub-key row changes. |
| Registry.DB.SubAdd | Core/db.py:187-225 | `subadd(k, s, v)` creates `k` as `{}` only when it was absent and otherwise leaves `data[k]` as it was. Afterwards `exists(k)`, `exists(k, s)` and `subget(k, s) == v` hold. The key count grows by one exactly when `k` was new, and the sub-key count by one exactly when `(k, s)` was new. |
| Registry.DB.Get | Core/db.py:227-250 | Returns the stored value, or None for an absent key. |
| Registry.DB.SubGet | Core/db.py:252-279 | Returns the stored sub-value, or None for an absent pair. |
| Registry.DB.GetAllSubdata | Core/db.py:281-307 | Holds exactly the sub-keys of `k`, with the values `subget` returns; it is `{}` iff `k` has no sub-key row. |
| Registry.DB.Exists | Core/db.py:426-453 | With a truthy sub-key, asks for that row; with None or `""`, asks for the key's row. |
| Registry.DB.Count | Core/db.py:455-476 | Is (number of rows of `data`, number of rows of `subdata`). |
| Registry.DB.Update | Core/db.py:309-355 | The nested loops leave exactly `ApplyUpdate(old tables, items)` and keep the foreign key. |
| Registry.DB.Remove | Core/db.py:393-424 | With a truthy sub-key, only that row goes and `data` is unchanged. Otherwise the key's row goes with all its sub-key rows, as the declared cascade says. The foreign key still holds. |
| Registry.DB.Fetchall | Core/db.py:357-391 | The merge loop returns exactly `MergeView(tables)`: the merged view, or the spread's TypeError. |
| RegistryTables.SubkeysOf | Core/db.py:293-301 | A sub-key is in the result iff its (key, sub-key) row exists, and it carries that row's value. |
| RegistryTables.RemoveCascadeKeepsIntact | Core/db.py:405-418 | Removal keeps the registry intact and keeps every row it does not delete. A truthy sub-key deletes just that row. Otherwise nothing of the key survives, neither its row nor any sub-key. |
| RegistryTables.UpdateStoresScalar | Core/db.py:340-346 | In a batch, a non-mapping value ends up as its key's top-level value. |
| RegistryTables.UpdateStoresSubkeys | Core/db.py:324-339 | Each entry of a mapping value ends up as a sub-key row of its key, and the key exists afterwards. |
| RegistryTables.UpdateCreatesEmptyParent | Core/db.py:328-331 | A non-empty mapping for a key that is not stored creates that key with the value `{}`. |
| RegistryTables.UpdateKeepsParentValue | Core/db.py:327-331 | A mapping value never overwrites the top-level value its key already had. |
| RegistryTables.UpdateEmptyMappingCreatesNothing | Core/db.py:324-331 | An empty mapping for an absent key creates neither the key nor any sub-key. |
| RegistryTables.UpdateLeavesOtherKeys | Core/db.py:323-346 | A key the batch does not name keeps its value, its presence and its sub-keys. |
| RegistryTables.UpdateKeepsRows | Core/db.py:323-346 | `update` only adds or overwrites: no row of either table disappears. |
| RegistryTables.UpdateKeepsIntact | Core/db.py:327-331 | Every sub-key row `update` writes has its parent row, so the foreign key keeps holding. |
| RegistryTables.ItemAtKey | Core/db.py:323-346 | One item at its own key: a scalar is stored; a mapping keeps an existing value, creates a missing key as `{}` when it is non-empty and writes its entries as sub-keys; an empty mapping for a missing key creates nothing. |
| RegistryTables.FetchallContents | Core/db.py:368-385 | On success, the keys are the top-level keys plus every parent of a sub-key row. A key without sub-keys shows its own value. A key with sub-keys shows its mapping extended by them. A missing parent shows a fresh mapping of its sub-keys. |
| RegistryTables.FetchallShowsSubkey | Core/db.py:375-383 | Every sub-key row appears, with its value, inside its parent's mapping. |
| RegistryTables.FetchallFailsOnScalarParent | Core/db.py:377-381 | A sub-key under a non-mapping value makes `fetchall` fail with the spread's TypeError. |
| RegistryTables.MergeScalarIff | Core/db.py:376-383 | The merged view shows a non-mapping for `k` iff `k`'s own value is one and no sub-key hangs under `k`; that value is then shown as stored. |
| RegistryTables.MergeWithoutRows | Core/db.py:368-369 | With no sub-key rows, `fetchall` returns the top-level table itself. |
| RegistryTables.FetchallOfIntactRegistry | Core/db.py:368-385 | In an intact registry, `fetchall` lists exactly the top-level keys. |
| RegistryTables.MergeStep | Core/db.py:376-383 | One row of the loop: merging row `p` into the view of the earlier rows either writes into the parent's mapping or creates a one-entry mapping. Everything else stays. |
| RegistryTables.FetchStep | Core/db.py:375-383 | One pass of the loop over the rows still to visit: the source either fails at a non-mapping parent, or extends the view exactly as `MergeStep` says. |
| RegistryTables.MergeOthers | Core/db.py:375-383 | Adding a row changes no key of the view other than its parent. |
| RegistryTables.MergeAtParent | Core/db.py:376-383 | Adding a row writes its value into the mapping shown for its parent, or creates that mapping. |
| RegistryTables.RemoveAsWrittenLeavesOrphan | Core/db.py:45-51 | As written, `subadd("a","x",1); remove("a")` leaves `("a","x")` without a parent, while the cascade removes it (see Findings). |
| RegistryTables.UpdateAsWrittenLosesEarlierWrite | Core/db.py:328-331 | As written, `update({"a": 1, "b": {"x": 2}})` on an empty registry loses `"a"`, while the intended batch keeps it (see Findings). |
| Template.SpaceRunSpec | Core/template.py:17 | A greedy `\s*` takes a run of whitespace that ends at the end of the text or at a non-space character. |
| Template.MatchWithSpan | Core/template.py:17 | Once the first `\s*` holds `l` characters, the rest of the pattern matches to `e` iff the text holds an occurrence with that `l` ending at `e`. |
| Template.BacktrackSpec | Core/template.py:17 | Backtracking reports a match that some shorter first `\s*` gives, and fails only when none does. |
| Template.BacktrackFirst | Core/template.py:17 | The match found is the one with the longest first `\s*` that lets the rest match. |
| Template.MatchAtSound | Core/template.py:17-18 | Every match the engine reports is an occurrence of `{{`, whitespace, the key, whitespace and `}}`. |
| Template.MatchAtComplete | Core/template.py:17-18 | Every occurrence of the pattern at a position is found there. |
| Template.MatchAtWord | Core/template.py:17-18 | For a key with no whitespace or brace, the match at an occurrence ends exactly at the occurrence's end. |
| Template.SameKey | Core/template.py:17 | Two keys with no whitespace or brace matched at the same place are the same key. |
| Template.ScanCopies | Core/template.py:18 | Positions where no match starts are copied unchanged. |
| Template.SubstituteNoMatch | Core/template.py:16-18 | Text with no placeholder for the key is unchanged by that key's pass. |
| Template.PlaceholderReplaced | Core/template.py:17-18 | For a non-empty key with no whitespace or brace, `{{ key }}`, with any blank padding, becomes exactly the value. |
| Template.NoMatchInPlaceholder | Core/template.py:17 | Inside a placeholder for one key with no whitespace or brace, no match for another such key starts. |
| Template.SurvivesPass | Core/template.py:16-18 | After a pass for one key, the output still contains every placeholder for a different key. |
| Template.ScanShift | Core/template.py:18 | The scan does not look back: text before a position does not change how the rest is scanned. |
| Template.ReplaceAfter | Core/template.py:18 | Brace-free text is copied, the match after it becomes the value, and the scan resumes right after the match. |
| Template.ReplaceFirst | Core/template.py:17-18 | Scanning left to right, the first placeholder becomes the value and the scan resumes after it, so matches do not overlap. |
| Template.NoPlaceholderWithout | Core/template.py:17 | The key is matched literally: a key character absent from the text rules out every match. |
| Template.DotIsLiteral | Core/template.py:17 | `.` in a key matches only itself: `{{a.b}}` is replaced and `{{axb}}` is not. |
| Template.ApplyAllNoMatch | Core/template.py:16-18 | With no replacements, or only keys without placeholders, the output equals the input. |
| Template.UnknownKeysSurvive | Core/template.py:16-18 | After every pass, the output still contains each placeholder for a key not among the replacements. |
| Template.ApplyTwo | Core/template.py:16-18 | Two replacements are two passes, the first applied first. |
| Template.OrderMatters | Core/template.py:16-18 | A later key sees the values inserted by earlier keys: for two different non-empty keys a and b with no whitespace or brace, replacing a by `{{b}}` then b by x turns `{{a}}` into x, while the other order leaves `{{b}}`. |
| Template.Template | Core/template.py:4-22 | Fails iff the template file is absent. Otherwise the output file, or the template file when the output is omitted, gets the passes applied in order, and every other file is unchanged. |
| AndroSH.JoinParts | main.py:120 | `os.path.join`: an absolute second part wins. Otherwise the result starts with the first part, ends with the second, and adds at most one `/`. |
| AndroSH.Architecture | main.py:23-42 | Succeeds exactly on the seven known machine ids; any other id raises "Unknown architecture.". |
| AndroSH.ArchitectureAliases | main.py:28-36 | `arm64-v8a` and `aarch64` map to aarch64; `armeabi`, `armeabi-v7a` and `armhf` map to armhf; `x86` and `x86_64` map to themselves. Each is an iff. |
| AndroSH.TagIsOwnAlias | main.py:28-36 | Each returned tag is itself a known machine id for that tag. |
| AndroSH.AssetUrlLayout | main.py:90-107 | The table has a `proot` and a `talloc` URL for each of the four tags, so the lookup never misses; each URL is the tag's repository directory plus the file name. |
| AndroSH.Assets | main.py:89-109 | Fails exactly when `architecture()` does. Otherwise it pairs the proot URL with `resources/proot` and the talloc URL with `resources/libtalloc.so.2`, in that order. |
| AndroSH.DirectoriesBeforeUse | main.py:120-141 | The main directory is created before the copies into it, and the Alpine directory before the extraction into it. |
| AndroSH.NoFailuresIff | main.py:123-143 | Nothing is printed as an error iff every command exits with status 0. |
| AndroSH.Issue | main.py:122-124 | One `cmd(c)`: it issues `-c "c"`, and appends stderr to the printed errors exactly when the exit status is non-zero. |
| AndroSH.IssueCopies | main.py:120-129 | The main directory and the copy loop issue the first three later commands, with their failures. |
| AndroSH.IssueLaterCommands | main.py:120-143 | All six later commands are issued in order, none stops the sequence, and the errors are the stderr of the failing ones. |
| AndroSH.SetupSandbox | main.py:111-144 | `which tar` failing is the only abort (`exit(1)`, only that command issued). Otherwise `which tar` and then all six commands are issued, with the failures printed. |
| AndroSH.AlpineDownload | main.py:71-87 | A verified download had storage, a known architecture and a matching digest for some attempt's version, and goes to `resources/alpine.tar.gz`. A storage failure exits with 1, and an unknown architecture raises. |
| AndroSH.RetryIsUnbounded | main.py:87 | Any number of corrupt downloads followed by a good one ends verified: the code sets no attempt bound. |
| AndroSH.MissingVersionRaises | main.py:79-83 | Metadata without a version raises, whatever retries came before. |
| AndroSH.Setup | main.py:150-164 | The steps run in order: download, assets, sandbox, rendering `Assets/proot.sh` into `resources/proot.sh` with name and distro, then `db.setup()`. `done` is set iff every step went through; a step that stops leaves the registry unchanged. |
| AndroSH.Start | main.py:166-184 | Launches `resources/proot.sh` exactly when `check()` was true, leaving the registry unchanged. Otherwise it runs setup, after which `check()` is true iff setup finished. |

## Left out

- SQLite plumbing: connections, `created_at`/`updated_at` timestamps and row ids are not modelled. The `sqlite3.Error` handlers are not modelled either, so every write succeeds and `setup`, `add`, `subadd`, `update` and `remove` return nothing rather than True.
- JSON: `json.dumps`/`json.loads` is the identity on `Value`; floats and lists are not values here.
- Top-level upserts (`add`, `setup`, the scalar case of `update`) leave sub-key rows untouched. What `INSERT OR REPLACE` does to child rows under an enforced foreign key is SQLite behaviour that is not part of this model.
- Template.Template: replacement values are inserted literally. The backslash escapes `re.sub` would process in a replacement string are not modelled.
- Template.Template: values are given as strings; `str(value)` is not modelled.
- Template.Template: writing the output file cannot fail, and reading fails only when the template is absent.
- Template.SurvivesPass, Template.UnknownKeysSurvive, Template.ReplaceFirst: stated for non-empty keys with no whitespace and no brace and for blank padding; other keys are not covered by these lemmas.
- Template.PlaceholderReplaced, Template.OrderMatters, Template.MatchAtWord, Template.SameKey, Template.NoMatchInPlaceholder: stated for non-empty keys with no whitespace and no brace; other keys are not covered by these lemmas.
- `\s` is the set of characters for which `str.isspace()` holds. Text is a sequence of code points, with no encoding.
- Core/shizuku.py and Core/console.py are not part of this model: the command runner is a parameter `string -> Completed`, and console output is kept only as the list of printed errors of `setup_sandbox`.
- AndroSH.AlpineDownload: the storage check, the HTTP metadata request, `yaml.safe_load`, `metadata[2]`, `FileDownloader` and `hashlib` are replaced by a boolean and a finite list of attempts, each with a version, a published sha512 and the digest of the downloaded file. When the list runs out, the download is reported as still going, since the source would keep retrying.
- `platform.machine()` is a parameter, and `Rish.drun` is reduced to the path of the script launched.
- `name` from `Core/__init__` is a parameter.
- The command runner is a function of the command string, so running the same command twice gives the same result.
- `fetchall` on a parent whose value is not a mapping: the comment at Core/db.py:380 says the value is converted to a mapping, but `{**value}` at Core/db.py:381 raises a TypeError on a non-mapping. The model follows the code.
- `setup_sandbox` detects a failed command by its return code (main.py:116-143).
- AndroSH.RetryIsUnbounded: the retry at main.py:87 is a recursive call, so CPython's recursion limit (1000 frames by default) ends it with a RecursionError after about a thousand corrupt downloads. The model has no recursion limit.
- Template.Template: the template is read and written in text mode (Core/template.py:12, 21), which turns `\r\n` and `\r` into `\n`. The model copies the content unchanged, so it does not capture line-ending conversion.
- Registry.DB.constructor: the stored tables are given as a parameter. Reading the file is not modelled. It requires the foreign key to hold in the stored tables, yet the as-written `remove` (first row of "## Findings") can leave orphan sub-key rows in the file, which `DB()` opens without complaint; such a file is not covered.

## Findings

| source | as written | input that shows it | evidently intended | confidence | as-written member | corrected member |
|---|---|---|---|---|---|---|
| Core/db.py:414-415 | The `ON DELETE CASCADE` of line 45 acts only on connections that ran `PRAGMA foreign_keys = ON`. Only the connection of `_initialize_database` runs it (line 51). `remove` opens a new connection, where the cascade is off, so deleting a key leaves its sub-key rows. | `subadd("a", "x", 1)` then `remove("a")`: `get_all_subdata("a")` still returns `{"x": 1}` | removing a key removes its sub-keys (the comment at line 414) | not executed | RegistryTables.RemoveAsWrittenLeavesOrphan | Registry.DB.Remove |
| Core/db.py:328-331 | Inside `update`, `self.add(key, {})` calls `connect()` (lines 60-63) and then commits and closes on its own connection. The reconnect that follows replaces the connection holding the batch's uncommitted writes, so those writes are lost. If the dropped connection is freed at once, its transaction is rolled back. If a reference cycle keeps it alive, it keeps its write lock: `add`'s INSERT (line 173) then fails with "database is locked", and nothing of the batch is stored. The model captures the first outcome. | `update({"a": 1, "b": {"x": 2}})` on an empty registry: `"a"` is not stored in either outcome | every item of the batch is written | not executed | RegistryTables.UpdateAsWrittenLosesEarlierWrite | Registry.DB.Update |
