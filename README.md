# aws-cred-gen: the credential store writer, in Dafny

`aws-cred-gen` assumes an AWS role through STS and saves the temporary
credentials as a named profile in the user's credential store,
`~/.aws/credentials`. This project models the part of the tool that has logic
of its own:

- **Settings** (`settings.dfy`). The `Config` class holds the process-wide
  settings. Its attributes start as no profile, output `json` and region
  `us-west-2`. The top-level command then overwrites all three, and an option
  left off the command line takes the same default. The module also holds the
  store's location: the directory `home + "/.aws/"` and the file
  `home + "/.aws/credentials"` inside it.
- **The store** (`ini.dfy`). An INI store, as configparser holds it in memory.
  The defaults section is kept apart. The other sections are an ordered list
  of names plus a table from name to key/value entries. `WellFormed` says that
  no name is listed twice, that the list and the table name the same sections,
  and that `DEFAULT` is never an ordinary section.
- **The parser object** (`parser.dfy`). `write_config` creates a
  `RawConfigParser`, reads the file into it and updates it in place with one
  `has_section`, an optional `add_section` and five `set` calls. The class
  `ConfigParser` has those fields and methods.
- **The file system** (`filesystem.dfy`). The directories that exist, and the
  store held by each file. A missing file reads as the empty store.
- **The writer** (`writer.dfy`). `WriteConfig` is `write_config`, step by step.
  It is proved against `MergeAsWritten`, a function that gives the store the
  calls produce. When the profile name is not empty, that function equals
  `Merge`, the intended merge. The lemmas about `Merge` state the properties:
  - no clobbering of other profiles;
  - no duplicate sections;
  - the list of sections stays in order;
  - the five managed keys are set and other keys in the profile are kept;
  - writing a second time changes nothing.

The home directory, the STS response and the file system are parameters of
the model.

## Model

| member | source | states |
|---|---|---|
| `Settings.Config.constructor` | aws_cred_generator/cli.py:10-13 | Before the command runs, the settings are: no profile, output format `json`, region `us-west-2`. |
| `Settings.Config.Capture` | aws_cred_generator/cli.py:17-24 | The top-level command overwrites all three settings with its options. An omitted `--output` or `--region` gives `json` or `us-west-2`, the same values the class starts with. |
| `Settings.ConfigDir` | aws_cred_generator/cli.py:43-46 | The directory the writer makes sure exists is exactly `home + "/.aws/"`, an extension of the home path. |
| `Settings.CredentialsPath` | aws_cred_generator/cli.py:14-15 | The store file is `home + "/.aws/credentials"`, which is the file `credentials` directly inside `ConfigDir(home)` (the directory is a proper prefix of the path). |
| `FileSystem.Disk.Load` | aws_cred_generator/cli.py:51-52 | Reading the store file, or finding it missing, gives a well-formed store. |
| `FileSystem.Disk.PathExists` | aws_cred_generator/cli.py:45 | The existence test is true exactly when the directory is present. |
| `FileSystem.Disk.MakeDirs` | aws_cred_generator/cli.py:46 | Creating a directory that is absent adds that directory and changes no file. |
| `FileSystem.Disk.Write` | aws_cred_generator/cli.py:66-67 | Writing replaces the whole file with the new store and leaves every other file and the directories as they were. |
| `Ini.DistinctCount` | aws_cred_generator/cli.py:56-57 | A list of section names without repetitions has exactly as many distinct names as entries. |
| `Ini.SectionCount` | aws_cred_generator/cli.py:56-57 | In a well-formed store, the ordered section list and the section table have the same size: each section is listed once. |
| `Ini.AddSection` | aws_cred_generator/cli.py:57 | Adding a missing, non-default section keeps the store well-formed. It appends the name at the end of the list with empty entries, and keeps every existing section and the defaults. |
| `Parser.ConfigParser.constructor` | aws_cred_generator/cli.py:51 | A new parser holds the empty, well-formed store. |
| `Parser.ConfigParser.Read` | aws_cred_generator/cli.py:52 | After reading, the fresh parser holds the file's store, or the empty store when the file is missing. |
| `Parser.ConfigParser.HasSection` | aws_cred_generator/cli.py:56 | The answer is true exactly when the name is a listed section. It is never true for the defaults section. |
| `Parser.ConfigParser.AddSection` | aws_cred_generator/cli.py:57 | The parser's new store is `Ini.AddSection` of its old store, and it stays well-formed. |
| `Parser.ConfigParser.Set` | aws_cred_generator/cli.py:59-63 | For a section name: the key is bound in that section only. For `""` or `DEFAULT`: the key is bound in the defaults. The section list never changes, and the store stays well-formed. |
| `Writer.Merge` | aws_cred_generator/cli.py:54-63 | After the write the profile exists and the store is still well-formed, so no name appears twice. An existing profile leaves the section list, and its order, unchanged. A new profile is appended as one new section. The defaults and every other section are identical before and after. |
| `Writer.MergeTargetEntries` | aws_cred_generator/cli.py:59-63 | In the profile, `output` and `region` equal the settings. `aws_access_key_id`, `aws_secret_access_key` and `aws_session_token` equal the bundle's `AccessKeyId`, `SecretAccessKey` and `SessionToken`. The profile's keys are its earlier keys plus the five, and every other earlier key keeps its value. |
| `Writer.MergeSectionCount` | aws_cred_generator/cli.py:56-57 | The number of sections is unchanged when the profile existed and grows by exactly one when it did not. The list and the table still have the same size. |
| `Writer.MergeIdempotent` | aws_cred_generator/cli.py:56-63 | Writing the same credentials with the same settings to the same profile twice gives the same store as writing once. |
| `Writer.MergeKeepsOtherProfile` | aws_cred_generator/cli.py:54-55 | A later write to a different profile leaves the first profile's section exactly as the first write left it. |
| `Writer.ManagedUpdates` | aws_cred_generator/cli.py:59-63 | The five consecutive `set`s come to the earlier entries overridden by the five managed entries. |
| `Writer.MergeAsWritten` | aws_cred_generator/cli.py:56-63 | The store the calls produce is well-formed, holds the profile, and lists the same sections as `Merge`. Every other existing section is unchanged. It equals `Merge` for every non-empty profile name. For the name `""`, the defaults become the old defaults overridden by the five managed entries, and the `""` section keeps its earlier entries (none when it is new). |
| `Writer.EmptyProfileWritesDefaults` | aws_cred_generator/cli.py:56-63 | For every well-formed store and the profile name `""`: all five managed keys land in the defaults with the settings' and the bundle's values. The `""` section keeps only what it had, and every existing section is unchanged. The result differs from `Merge` whenever the access key was not already in both the defaults and the `""` section. |
| `Writer.MergeAsWrittenIdempotent` | aws_cred_generator/cli.py:56-63 | Running the writer's calls twice with the same credentials, settings and profile gives the same store as running them once, for every profile name including `""`. |
| `Writer.PutCredentials` | aws_cred_generator/cli.py:56-63 | The conditional `add_section` followed by the five `set`s turns the parser's store into `MergeAsWritten` of the store it held. |
| `Writer.SetManagedKeys` | aws_cred_generator/cli.py:59-63 | The five `set`s override the profile's entries with the managed ones, or the defaults' entries when the name addresses the defaults. The list of sections does not change. |
| `Writer.WriteConfig` | aws_cred_generator/cli.py:42-67 | Afterwards `home + "/.aws/"` exists, and no other directory was added. The store file, and only that file, is replaced by `MergeAsWritten` of the store read from it, a missing file reading as empty. For a non-empty profile name that store is `Merge`'s, so all of `Merge`'s properties hold of the written file. |

## Left out

- The click wiring is not modelled: the command groups, the `assume` command's option parsing and the command registration (aws_cred_generator/cli.py:17-40, 69-70). `Settings.Config.Capture` models only the body of `cli` and the two option defaults.
- The boto3 session and the STS `assume_role` call are not modelled (aws_cred_generator/cli.py:36-39). They are network I/O. The response is a parameter of `Writer.WriteConfig`, reduced to its credentials. The bundle's expiration is carried but never written, as in the code.
- The two `click.echo` status lines are not modelled: they are terminal output.
- `expanduser("~")` is not modelled: the home directory is a parameter.
- `makedirs` also creates missing parent directories. The model records only the store directory.
- configparser's text parsing and serialisation are not modelled. Stores are modelled as already parsed. So the model also leaves out:
  - parse errors;
  - the lower-casing of keys;
  - the layout of the written file;
  - the order of keys within a section, since entries are a map.
- The serialisation round trip is not modelled: `FileSystem.Disk.Load` gives back exactly the store that was written. configparser writes a section named `""` as a bare `[]` header, and its section-header pattern needs at least one character between the brackets. So, from configparser's text (not run), the next read of such a file fails with a parsing error, and the model does not show this.
- `Parser.ConfigParser.Read`: models reading into a freshly created parser only, which is the one use the writer makes of it. configparser merges into whatever the parser already holds.
- `Parser.ConfigParser.AddSection`: requires a name that is not `DEFAULT`. configparser raises `ValueError` for that name, and the writer does not handle it. On Python 2 the old `ConfigParser` module also refuses every other spelling of `default`, and that is not modelled.
- The fallback import of Python 2's `ConfigParser` (aws_cred_generator/cli.py:5-8) is not modelled.
- Failures of `open` or `write`, such as permissions or a full disk, are not modelled.
- `write_config` writes exactly the five keys above; there is no expiration key. The code has no organisation-account command, no external id, no fallback to the ambient profile, no exit-code mapping and no JSON output mode, so none of these is modelled.
- `setup.py` is not modelled: it is packaging metadata.

## Findings

| source | as written | input that shows it | evidently intended | confidence | as-written member | corrected member |
|---|---|---|---|---|---|---|
| aws_cred_generator/cli.py:56-63 | The profile name is passed to `set` unchecked. configparser's `set` sends an empty section name to the defaults. So `save_profile = ""` adds an empty `[""]` section and writes the five keys into `[DEFAULT]`, which every profile inherits. On disk, configparser writes that section as a bare `[]` header, which its own reader refuses, so the next run's `config.read` raises a parsing error (from configparser's text; this part is not modelled). | `--save-profile ""` | The credentials go into the named profile only and never into the defaults, as the comment at lines 54-55 says. | medium: rests on configparser's `set` behaviour; not executed | `Writer.EmptyProfileWritesDefaults` | `Writer.Merge` |
