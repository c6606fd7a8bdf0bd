# ansible-self-service, modelled in Dafny

ansible-self-service lets users install and update desktop apps that live in
git repositories ("app collections"). Each collection has a `self-service.yaml`
manifest. The manifest lists categories and items, and every item is an app
described by an Ansible playbook. This project models the core of that program
and proves properties of the model:

- **The domain model** of the layered generation (`l4_core/models.py`),
  modelled in `core_models.dfy`:
  - an `AppCollection` is one git checkout whose manifest is read lazily, the
    first time a guarded property is used;
  - the `AppCatalog` is the dictionary of all collections under the git
    directory, and it can add, remove, look up and list them.
- **The domain model of the older generation** (`core/models.py`), in
  `legacy_models.dfy`: the `RepoManager` list of cloned repositories.
- **Manifest reading** (`app_collection_config_parser.py` and
  `yaml_repo_config_parser.py`). Both parsers validate the document against the
  same schema (`categories` and `items` must be mappings), then turn it into
  domain objects. The validation and the parse they share are in
  `manifest_schema.dfy`. Each parser's own mapping to its domain types is in
  `collection_config_parser.dfy` and `repo_config_parser.dfy`.
- **The Ansible result analyzer** (`ansible_result_analyzer.py`), in
  `result_analyzer.dfy`. Its JMESPath queries are evaluated over a JSON-like
  document type, step by step.
- **The observer mixin** (`l4_core/utils.py`), in `observable.dfy`.
- **The service layer** (`l3_services/dto.py`, `l3_services/app_catalog.py`),
  in `dto.dfy` and `catalog_service.dfy`: snapshots of collections and apps,
  and the catalog service that hands them out.
- **Privilege elevation on POSIX** (`elevate/posix.py`), in
  `elevate_posix.dfy`: shell and AppleScript quoting, the ordered list of
  elevation tools, and the exec loop.
- **The collection commands of the CLI** (`cli/collection.py`), in
  `cli_collection.dfy`: name derivation, exit codes and update reports.

The model's boundaries:

- **The file system and git** are small classes with concrete semantics
  (`host.dfy`):
  - the file system is a set of directories plus a map from file paths to
    loaded YAML documents;
  - the git client keeps a map from checked-out directories to their revision
    and origin;
  - a fixed map of remotes (URL to head revision and root files) stands for
    the network.
- **Python exceptions** are values: `Result`/`Option` of an `Error` in
  `outcomes.dfy`.
- **YAML documents** are the `Doc` datatype in `documents.dfy`.
- **Everything the program asks of the outside world** is a parameter:
  - the parser behind `AppCollectionConfigParserProtocol`;
  - `shlex.quote`, `giturlparse.validate` and `os.execlp`;
  - the user id, the platform and `DISPLAY`.

## Model

| member | source | states |
|---|---|---|
| CoreModels.WasSuccessfulInvertsExitStatus | ansible_self_service/l4_core/models.py:34-44 | `was_successful` is false for exit status 0 and true for every other status, as written |
| CoreModels.IndexByNameKeysAreNames | ansible_self_service/l4_core/models.py:97-98 | the keys of `{x.name: x for x in xs}` are exactly the names occurring in `xs`, and each value carries its key as name |
| CoreModels.IndexByNameLastWins | ansible_self_service/l4_core/models.py:97-98 | when several elements share a name, the dictionary holds the last of them |
| CoreModels.Refreshed | ansible_self_service/l4_core/models.py:95-103 | a parsed manifest replaces categories and apps by name and clears the validation error; a validation failure empties both and keeps the message; any other parser failure escapes |
| CoreModels.LaterListingWins | ansible_self_service/l4_core/models.py:97-98 | an app listed last under its name is the one the collection keeps |
| CoreModels.AppCollection.constructor | ansible_self_service/l4_core/models.py:61-71 | a new collection is empty, has no validation error and is not initialised |
| CoreModels.AppCollection.Refresh | ansible_self_service/l4_core/models.py:90-103 | a missing manifest raises the config-does-not-exist error and changes nothing; otherwise the fields become what `Refreshed` makes of the parser's outcome |
| CoreModels.AppCollection.Initialize | ansible_self_service/l4_core/models.py:79-88 | refresh runs only while uninitialised; the flag is set only when refresh succeeds, so a failed refresh is retried by the next guarded call; its error is exactly `InitError` before the call |
| CoreModels.AppCollection.InitError | ansible_self_service/l4_core/models.py:79-103 | the guard raises nothing exactly when it lets a call through; a missing manifest raises config-does-not-exist, otherwise the failure `refresh` lets escape |
| CoreModels.AppCollection.Revision | ansible_self_service/l4_core/models.py:105-109 | the property initialises first, then answers git's revision of the directory; it succeeds iff initialisation can pass and the directory is a checkout; a failing initialisation's error escapes as it is, and otherwise the answer is git's, error included |
| CoreModels.AppCollection.Url | ansible_self_service/l4_core/models.py:111-115 | the property initialises first, then answers the origin URL of the checkout; a failing initialisation's error escapes as it is, and otherwise the answer is git's, error included |
| CoreModels.AppCollection.Update | ansible_self_service/l4_core/models.py:117-126 | succeeds iff initialisation can pass and git can resolve an update of this checkout; then this checkout, and no other, moves to the resolved revision and the revisions before and after are returned; a failure leaves every checkout as it was and, once initialisation has passed, is git's error; before that it is the initialisation's error, which the failed call leaves standing; the manifest is not re-read |
| CoreModels.AppCatalog.constructor | ansible_self_service/l4_core/models.py:129-136 | a new catalog has no collections and is not initialised |
| CoreModels.AppCatalog.GetDirectoryForCollection | ansible_self_service/l4_core/models.py:161-164 | a collection lives in the child of the git directory that carries its name |
| CoreModels.AppCatalog.Refresh | ansible_self_service/l4_core/models.py:153-159 | afterwards the keys are exactly the names of the git checkouts directly inside the git directory, each mapped to a fresh, uninitialised collection in that directory |
| CoreModels.AppCatalog.Initialize | ansible_self_service/l4_core/models.py:145-151 | the catalog refreshes once; once initialised, the dictionary is kept as it is |
| CoreModels.AppCatalog.GetCollectionByName | ansible_self_service/l4_core/models.py:175-178 | the answer is the collection stored under the name, or none for an unknown name |
| CoreModels.AppCatalog.List | ansible_self_service/l4_core/models.py:180-183 | every collection appears once, in strictly ascending order of name |
| CoreModels.AppCatalog.Add | ansible_self_service/l4_core/models.py:185-194 | an existing target directory is refused with already-exists before anything changes; an unknown remote is git's error and changes nothing; otherwise the target directory is created with the remote's root files, checked out at the remote's head, and one uninitialised collection joins under the name while every other entry is kept |
| CoreModels.AppCatalog.Remove | ansible_self_service/l4_core/models.py:196-202 | if the target is a directory, it and everything within it leaves the file system and the checkouts; otherwise nothing on disk changes; the name then leaves the dictionary; a plain file at the target raises ENOTDIR and an unknown name KeyError; every other entry is kept |
| CoreModels.OrderedByName | ansible_self_service/l4_core/models.py:183 | the values of a name-keyed dictionary, each once, sorted by key |
| CoreModels.SortedKeys | ansible_self_service/l4_core/models.py:183 | the key order of `sorted(d.items())` (keys are unique): ascending, with exactly the keys, each once |
| CoreModels.PermutationKeepsDistinct | ansible_self_service/l4_core/models.py:183 | sorting distinct keys keeps them distinct |
| CoreModels.DistinctCountsOnce | ansible_self_service/l4_core/models.py:183 | a key occurs at most once in a list without repeats |
| CoreModels.RepeatCountsTwice | ansible_self_service/l4_core/models.py:183 | a repeated key occurs at least twice |
| LegacyModels.DirectoryNameOfClone | ansible_self_service/core/models.py:57-60 | the directory name of a repository cloned under `name` is `name` |
| LegacyModels.RemoveFirst | ansible_self_service/core/models.py:109-112 | `list.remove` fails with ValueError iff no element compares equal, and otherwise drops exactly one element |
| LegacyModels.RemoveFirstDropsFirstEqual | ansible_self_service/core/models.py:109-112 | the element dropped is the first that compares equal |
| LegacyModels.RemoveDropsHead | ansible_self_service/core/models.py:45-51 | `GitRepo` instances all compare equal, so removal drops the head of the list whatever repository is passed; an empty list raises ValueError |
| LegacyModels.RepoManager.constructor | ansible_self_service/core/models.py:92-94 | the repository list does not exist until the first refresh |
| LegacyModels.RepoManager.RefreshRepos | ansible_self_service/core/models.py:96-101 | the list holds exactly the git checkouts directly inside the git directory, without repeats |
| LegacyModels.RepoManager.Add | ansible_self_service/core/models.py:103-107 | an unknown remote or an existing target is git's error and changes nothing; otherwise the directory is created with the remote's root files and checked out at the head, and the repository is appended to the list (or an AttributeError if the list was never built) |
| LegacyModels.RepoManager.Remove | ansible_self_service/core/models.py:109-112 | a directory raises EISDIR and the list is kept; otherwise a file at the path is deleted (a missing one is ignored), directories are untouched, and the first equal entry leaves the list |
| ManifestSchema.FieldErrorsIn | ansible_self_service/l2_infrastructure/app_collection_config_parser.py:13-20 | there are no field errors iff every schema field present is a mapping; errors name only schema fields |
| ManifestSchema.Validate | ansible_self_service/l2_infrastructure/app_collection_config_parser.py:28-35 | a document that is not a mapping is refused as such; a mapping passes iff `categories` and `items` are mappings when present; a refusal lists at least one field |
| ManifestSchema.TypeErrorMessage | ansible_self_service/l2_infrastructure/app_collection_config_parser.py:35 | a `categories` field of the wrong type renders as cerberus's error dictionary `{'categories': ['must be of dict type']}` |
| ManifestSchema.OneErrorMessage | ansible_self_service/l2_infrastructure/app_collection_config_parser.py:35 | a single field error renders as the dictionary `{'<field>': ['<message>']}` |
| ManifestSchema.StringItems | ansible_self_service/l2_infrastructure/app_collection_config_parser.py:53 | a category list gives its strings in order, or a TypeError if any element is not a string |
| ManifestSchema.CategoryNames | ansible_self_service/l2_infrastructure/app_collection_config_parser.py:53 | iterating `categories`: a string gives its characters, a mapping its keys, a list its strings; any other value is a TypeError |
| ManifestSchema.ParseItem | ansible_self_service/l2_infrastructure/app_collection_config_parser.py:49-53 | an item becomes its name, its stripped description and its category names; a non-mapping item, a missing key or a non-string description fails with the error Python raises |
| ManifestSchema.ParseItems | ansible_self_service/l2_infrastructure/app_collection_config_parser.py:44-45 | the comprehension over the items succeeds iff every item parses, and then gives one record per item, in order |
| ManifestSchema.ParseItemsFailsAtFirstFailure | ansible_self_service/l2_infrastructure/app_collection_config_parser.py:44-45 | a failing comprehension raises the error of the first item that fails |
| ManifestSchema.MapAllFailsAtFirstFailure | ansible_self_service/l2_infrastructure/app_collection_config_parser.py:44-45 | a comprehension whose element expression raises stops at the first element that raises, with that element's error |
| ManifestSchema.EntriesOf | ansible_self_service/l2_infrastructure/app_collection_config_parser.py:42-45 | `document[key].items()` succeeds iff the key is present and maps to a mapping |
| ManifestSchema.Parse | ansible_self_service/l2_infrastructure/app_collection_config_parser.py:40-47 | the category names are the keys of `categories` and the items follow `items` in order; a non-mapping document raises TypeError, a missing `categories` or (after it) a missing `items` raises KeyError for that key, and otherwise the parse fails exactly when the items' comprehension fails, with that comprehension's error |
| ManifestSchema.Read | ansible_self_service/l2_infrastructure/app_collection_config_parser.py:22-38 | `from_file` after loading: a refused document raises the validation error, and an accepted one gives `parse`'s result |
| ManifestSchema.ValidatedFieldsAreMappings | ansible_self_service/l2_infrastructure/app_collection_config_parser.py:13-20 | after validation, every schema field present is a mapping |
| ManifestSchema.GetInIsAnEntry | ansible_self_service/l2_infrastructure/app_collection_config_parser.py:42-45 | a key lookup answers a value the document holds under that key |
| Documents.GetInFindsEntry | ansible_self_service/l2_infrastructure/app_collection_config_parser.py:42-45 | in a mapping whose keys are distinct, as a loaded dictionary's are, `document[key]` answers the value of the entry holding that key |
| ManifestSchema.AcceptedShape | ansible_self_service/l2_infrastructure/app_collection_config_parser.py:40-47 | an accepted manifest has one category per `categories` entry and one item per `items` entry, named by its key |
| ManifestSchema.ManifestReads | ansible_self_service/l2_infrastructure/app_collection_config_parser.py:22-47 | a document that passes validation, whose two sections are dictionaries and whose items all parse, is accepted as the keys of `categories` and the records of `items` |
| ManifestSchema.CowsayDescriptionStrips | tests/unit/l2_infrastructure/test_app_collection_config_parser.py:16-34 | the block-scalar description of the valid test manifest loses its trailing newline |
| ManifestSchema.CowsayItemFields | tests/unit/l2_infrastructure/test_app_collection_config_parser.py:16-34 | the test item's description and categories are what the YAML says |
| ManifestSchema.CowsayItemParses | tests/unit/l2_infrastructure/test_app_collection_config_parser.py:16-34 | the test item parses to `Cowsay` in category `Misc` |
| ManifestSchema.CowsayManifestReads | tests/unit/l2_infrastructure/test_app_collection_config_parser.py:58-68 | the valid test manifest is accepted with one category and one item |
| ManifestSchema.ProseIsRejected | tests/unit/l2_infrastructure/test_app_collection_config_parser.py:71-82 | a document that is a bare string is refused as not a document |
| AppCollectionConfigParser.ToApp | ansible_self_service/l2_infrastructure/app_collection_config_parser.py:49-53 | an item record becomes an app with its name, its description and its categories in order |
| AppCollectionConfigParser.FromDocument | ansible_self_service/l2_infrastructure/app_collection_config_parser.py:22-47 | validation failures become the invalid outcome with cerberus's message; an accepted manifest gives its categories and apps in document order; any other failure escapes |
| AppCollectionConfigParser.AppsFollowTheManifest | ansible_self_service/l2_infrastructure/app_collection_config_parser.py:44-53 | the i-th app is named by the i-th `items` key and carries that entry's stripped description and category names |
| AppCollectionConfigParser.AcceptedManifest | ansible_self_service/l2_infrastructure/app_collection_config_parser.py:40-47 | an accepted manifest becomes one category per category name and one app per item record, in order |
| AppCollectionConfigParser.CowsayManifestParses | tests/unit/l2_infrastructure/test_app_collection_config_parser.py:58-68 | the valid test manifest gives the categories `[Misc]` and the one app `Cowsay` |
| AppCollectionConfigParser.ProseIsInvalid | tests/unit/l2_infrastructure/test_app_collection_config_parser.py:71-82 | the invalid test manifest raises the validation error |
| AppCollectionConfigParser.ListOfCategoriesIsInvalid | ansible_self_service/l2_infrastructure/app_collection_config_parser.py:13-35 | a `categories` list is refused with the type message for `categories` |
| AppCollectionConfigParser.ListOfCategoriesRejected | ansible_self_service/l2_infrastructure/app_collection_config_parser.py:28-35 | the validator refuses that document with exactly one field error |
| AppCollectionConfigParser.ListOfCategoriesErrors | ansible_self_service/l2_infrastructure/app_collection_config_parser.py:13-20 | the one field error is the dict-type rule on `categories` |
| RepoConfigParser.ToItem | ansible_self_service/infrastructure/yaml_repo_config_parser.py:49-53 | an item record becomes a repository item with its name, its description and its categories in order |
| RepoConfigParser.FromDocument | ansible_self_service/infrastructure/yaml_repo_config_parser.py:22-47 | a refused document raises the validation error; an accepted one gives a config carrying the file path, categories and items in document order |
| RepoConfigParser.AcceptedManifest | ansible_self_service/infrastructure/yaml_repo_config_parser.py:40-47 | an accepted manifest becomes the file path with one category per category name and one item per item record, in order |
| RepoConfigParser.CowsayManifestParses | tests/test_infrastructure/test_repoconfigparser.py:34-42 | the valid test manifest gives category `Misc` and the item `Cowsay` |
| RepoConfigParser.ProseIsInvalid | tests/test_infrastructure/test_repoconfigparser.py:45-50 | the invalid test manifest raises the validation error |
| ResultAnalyzer.FilterTasksKeepsCarriers | ansible_self_service/l2_infrastructure/ansible_result_analyzer.py:8-10 | the filter `[?hosts.localhost.msg=='<msg>']` keeps exactly those tasks carrying the message |
| ResultAnalyzer.FilterKeepsExactly | ansible_self_service/l2_infrastructure/ansible_result_analyzer.py:8-10 | a filter projection keeps exactly the elements its condition accepts, and never more elements than it is given |
| ResultAnalyzer.ProjectionKeepsMatchingTasks | ansible_self_service/l2_infrastructure/ansible_result_analyzer.py:8-14 | projecting the filter over the plays and flattening gives the matching tasks of all plays, in order |
| ResultAnalyzer.QueryCountsMatchingTasks | ansible_self_service/l2_infrastructure/ansible_result_analyzer.py:12-14 | the query counts those tasks of all plays that carry the message; data without a `plays` list is a type error |
| ResultAnalyzer.SignalingIffSomeTaskCarries | ansible_self_service/l2_infrastructure/ansible_result_analyzer.py:16-30 | a sentinel is signalled iff at least one task of some play carries it |
| ResultAnalyzer.OtherTaskAddsNothing | ansible_self_service/l2_infrastructure/ansible_result_analyzer.py:8-10 | a task with another message, or none, is not counted |
| ResultAnalyzer.EmptyPlayAddsNothing | ansible_self_service/l2_infrastructure/ansible_result_analyzer.py:8-10 | a play with an empty task list adds nothing |
| ResultAnalyzer.HasChanges | ansible_self_service/l2_infrastructure/ansible_result_analyzer.py:32-40 | a null, list or mapping counter gives false (the TypeError is caught); a boolean gives itself; a number, or a string `int()` reads as a number, gives whether it is positive; a string `int()` refuses escapes as ValueError, and nothing else fails |
| ResultAnalyzer.ParseUnsignedLiteral | ansible_self_service/l2_infrastructure/ansible_result_analyzer.py:35 | `int()` reads a run of decimal digits as its value |
| ResultAnalyzer.ParseSignAndDigits | ansible_self_service/l2_infrastructure/ansible_result_analyzer.py:35 | `int()` reads a minus sign and digits as the negative value |
| ResultAnalyzer.ParseIntLiteralOfRendering | ansible_self_service/l2_infrastructure/ansible_result_analyzer.py:35 | a counter written as `str(n)` is read back as `n` |
| ResultAnalyzer.PlainDigitsAreGrouped | ansible_self_service/l2_infrastructure/ansible_result_analyzer.py:35 | a run of digits is a well-formed literal, with no underscore to drop |
| ResultAnalyzer.UnderscoreIsIgnored | ansible_self_service/l2_infrastructure/ansible_result_analyzer.py:35 | `int()` reads digits grouped by one underscore as the same number as the digits without it |
| ResultAnalyzer.GroupedPair | ansible_self_service/l2_infrastructure/ansible_result_analyzer.py:35 | two runs of digits joined by one underscore form a well-formed grouped literal |
| ResultAnalyzer.DropUnderscoreBetween | ansible_self_service/l2_infrastructure/ansible_result_analyzer.py:35 | dropping the grouping underscore gives back the digits written together |
| ResultAnalyzer.ParsePlainDigits | ansible_self_service/l2_infrastructure/ansible_result_analyzer.py:35 | a run of digits without sign or spaces reads as the number it denotes |
| ResultAnalyzer.ParseMinusSign | ansible_self_service/l2_infrastructure/ansible_result_analyzer.py:35 | a minus sign in front of a literal negates the number the literal reads as |
| ResultAnalyzer.NegativeRenderingParses | ansible_self_service/l2_infrastructure/ansible_result_analyzer.py:35 | a negative counter written as `str(n)` is read back as `n` |
| ResultAnalyzer.FixtureFilter | tests/unit/l2_infrastructure/test_ansible_result_analyzer.py:5-126 | of the fixture's tasks, exactly one carries the not-installed sentinel and none the installed one |
| ResultAnalyzer.FixtureAllTasks | tests/unit/l2_infrastructure/test_ansible_result_analyzer.py:5-126 | the fixture's plays hold its three tasks, in order |
| ResultAnalyzer.NotInstalledRunSignals | tests/unit/l2_infrastructure/test_ansible_result_analyzer.py:129-134 | the fixture signals "not installed" and does not signal "installed" |
| Observable.ObservableObject.constructor | ansible_self_service/l4_core/utils.py:14-15 | a new object has no observers |
| Observable.ObservableObject.Attach | ansible_self_service/l4_core/utils.py:17-18 | the observer joins the set; attaching twice is attaching once |
| Observable.ObservableObject.Detach | ansible_self_service/l4_core/utils.py:20-21 | the observer leaves the set, or a KeyError is raised if it was not attached |
| Observable.ObservableObject.SetAttr | ansible_self_service/l4_core/utils.py:23-29 | the value is stored first; only when the key is observed and the guard attribute exists is every observer told exactly once, with the key and the new value |
| Observable.ObservableObject.AttachTwice | ansible_self_service/l4_core/utils.py:17-18 | two attachments of one observer leave the set as one does |
| Observable.ObservedAssignmentIsSilent | ansible_self_service/l4_core/utils.py:23-29 | as written, the guard asks about an attribute the mixin never creates, so assigning an observed attribute notifies nobody |
| Dto.SnapshotError | ansible_self_service/l3_services/dto.py:21-30 | `from_domain` raises nothing exactly when the collection can be snapshotted; otherwise the initialisation's error, or git's for a directory that is no checkout |
| Dto.CollectionFromDomain | ansible_self_service/l3_services/dto.py:21-30 | succeeds iff initialisation can pass and the directory is a checkout, and then the snapshot is exactly the name, git's revision and origin URL, the directory and the validation error; a failure raises exactly `SnapshotError`; neither whether the collection can be listed nor the error it would raise is changed |
| Dto.StatusFromDomain | ansible_self_service/l3_services/dto.py:33-41 | the service status carries the value of the domain status it comes from |
| Dto.StatusRoundTrip | ansible_self_service/l3_services/dto.py:33-41 | each service status comes back from its own value |
| Dto.AppFromDomain | ansible_self_service/l3_services/dto.py:53-65 | the snapshot keeps the app's name, the collection and the status; its category names are sorted and are a permutation of the app's |
| Dto.CategoryOrderIsForgotten | ansible_self_service/l3_services/dto.py:56-59 | two apps whose category names differ only in order give equal snapshots |
| Dto.SnapshotPrintsAsName | ansible_self_service/l3_services/dto.py:67-68 | an app snapshot prints as its name |
| CatalogService.AppCatalogService.constructor | ansible_self_service/l3_services/app_catalog.py:16-17 | the service wraps the given catalog |
| CatalogService.AppCatalogService.Add | ansible_self_service/l3_services/app_catalog.py:19-25 | an existing collection becomes the service's own already-exists error, and so does the domain's already-exists error raised while snapshotting, so that error never escapes; an unknown remote is git's error and changes nothing; otherwise the clone happens as in the catalog and the result succeeds iff the new collection can be snapshotted, and is then exactly its snapshot at the remote's head; a failing snapshot raises its error, translated when it is the domain's already-exists |
| CatalogService.AppCatalogService.Remove | ansible_self_service/l3_services/app_catalog.py:27-29 | relays the catalog's removal: the same effect on directories, files and checkouts, the same errors, and the same keys |
| CatalogService.AppCatalogService.Update | ansible_self_service/l3_services/app_catalog.py:31-36 | an unknown name fails on the missing `update` of `None`; the call succeeds iff the collection is known, can be initialised and git can resolve its update; a success moves that one checkout to the resolved revision and returns both revisions; a failure changes no checkout, and is the initialisation's error when the collection cannot be initialised, git's otherwise |
| CatalogService.AppCatalogService.ListCollections | ansible_self_service/l3_services/app_catalog.py:38-41 | succeeds iff every collection can be snapshotted; then it gives exactly one snapshot per collection, equal to that collection's snapshot, in strictly ascending order of name; a failure raises the error of a collection that cannot be snapshotted and before which, by name, every collection can |
| CatalogService.Snapshots | ansible_self_service/l3_services/app_catalog.py:41 | succeeds iff every collection in the list can be snapshotted; then the i-th result is exactly the snapshot of the i-th collection; a failure raises the error of the first collection that cannot be snapshotted, and taking snapshots changes no collection's error |
| CatalogService.FirstFailureInNameOrder | ansible_self_service/l3_services/app_catalog.py:38-41 | when the listing in ascending name order stops at an entry, every collection whose name comes before it can be snapshotted |
| CatalogService.ListingCoversCatalog | ansible_self_service/l3_services/app_catalog.py:38-41 | snapshots of a listing that holds every collection once are snapshots of the catalog's collections, one per name, and exist iff every collection can be snapshotted |
| ElevatePosix.Escape | ansible_self_service/l2_infrastructure/elevate/posix.py:16-23 | each of the five special characters grows by one character, and every other character is kept |
| ElevatePosix.QuoteAppleScript | ansible_self_service/l2_infrastructure/elevate/posix.py:15-23 | the output starts and ends with `"`, and its length is the input's plus 2 plus the number of escaped characters |
| ElevatePosix.UnescapeEscape | ansible_self_service/l2_infrastructure/elevate/posix.py:16-23 | AppleScript's reading of the escaped body gives back the original text |
| ElevatePosix.QuoteAppleScriptInjective | ansible_self_service/l2_infrastructure/elevate/posix.py:15-23 | different texts quote differently |
| ElevatePosix.EscapeIsWellEscaped | ansible_self_service/l2_infrastructure/elevate/posix.py:16-23 | in the escaped body, every quote and backslash belongs to an escape pair |
| ElevatePosix.QuotesAreEscaped | ansible_self_service/l2_infrastructure/elevate/posix.py:16-23 | in a well-escaped body, every quote is directly preceded by a backslash |
| ElevatePosix.QuotedBodyHasOnlyEscapedQuotes | ansible_self_service/l2_infrastructure/elevate/posix.py:15-23 | between the outer quotes, no quote appears without its escaping backslash |
| ElevatePosix.QuoteShellAppend | ansible_self_service/l2_infrastructure/elevate/posix.py:11-12 | one more argument adds one space and its quote at the end, so the quotes appear in argument order |
| ElevatePosix.QuoteShellSingle | ansible_self_service/l2_infrastructure/elevate/posix.py:11-12 | a single argument is just its quote |
| ElevatePosix.Candidates | ansible_self_service/l2_infrastructure/elevate/posix.py:32-52 | osascript is first iff graphical on darwin; pkexec, gksudo and kdesudo follow when graphical on linux with DISPLAY set; sudo is always last and only last; each tool is prefixed to the interpreter and the arguments |
| ElevatePosix.BuildCommands | ansible_self_service/l2_infrastructure/elevate/posix.py:33-52 | the list built by appending is `Candidates` |
| ElevatePosix.TryInOrder | ansible_self_service/l2_infrastructure/elevate/posix.py:54-59 | commands are tried in order; a not-found failure moves on except for sudo; any other failure is raised at once; the first exec that succeeds replaces the process |
| ElevatePosix.Elevate | ansible_self_service/l2_infrastructure/elevate/posix.py:26-59 | root returns without trying anything; otherwise the commands tried are a prefix of the candidates, all but the last failed as not found, and the last replaced the process or raised |
| CliCollection.DeriveName | ansible_self_service/l1_entrypoints/cli/collection.py:45-47 | a non-empty given name is used unchanged; otherwise the derived name contains neither `/` nor `.` |
| CliCollection.DerivedNameIsSegmentStem | ansible_self_service/l1_entrypoints/cli/collection.py:45-47 | the derived name is the start of the URL's last `/`-segment, ending where that segment ends or at its first `.` |
| CliCollection.DeriveFromCloneUrl | ansible_self_service/l1_entrypoints/cli/collection.py:45-47 | `https://example.org/cowsay.git` derives `cowsay`, also when the name is empty; an explicit name wins |
| CliCollection.Add | ansible_self_service/l1_entrypoints/cli/collection.py:36-53 | an invalid URL exits with 1 before the catalog is touched; an existing collection exits with 1; a new collection from a known remote is cloned at the head under the derived name, and the exit code is 0 iff it can be snapshotted; an unknown remote escapes as git's error with no checkout changed; a failing snapshot exits with 1 when its error is either already-exists error and otherwise escapes as it is, so neither already-exists error ever escapes |
| CliCollection.ReportUpdate | ansible_self_service/l1_entrypoints/cli/collection.py:64-71 | "already up-to-date" at the new revision iff the revision did not move; otherwise "updated from old to new" |
| CliCollection.Update | ansible_self_service/l1_entrypoints/cli/collection.py:74-80 | succeeds iff the collection is known, can be initialised and git can resolve its update; the report is about the checkout's revisions before and after; only that checkout moves, and a failure moves none; a known collection that cannot be initialised fails with the initialisation's error, and one that can fails only with git's |
| CliCollection.UpdateEach | ansible_self_service/l1_entrypoints/cli/collection.py:87-91 | the outcome and the checkouts are those of `RunUpdates` over the names from the checkouts before; update is called on a prefix of the names in order, on all of them when it succeeds, and the reports follow the names; no checkout appears or vanishes and every collection stays initialised |
| CliCollection.UpdateAll | ansible_self_service/l1_entrypoints/cli/collection.py:83-91 | the listed names are the catalog's, sorted and distinct; the command fails at the listing, with nothing listed or updated, exactly when some collection cannot be snapshotted, and then with the error of such a collection; when all can, every known name is listed; on success every collection's checkout moved to the latest revision of its origin, no checkout appeared or vanished, and the i-th report compares the i-th collection's revision after with its revision before |
| CliCollection.RunUpdatesSucceedsIff | ansible_self_service/l1_entrypoints/cli/collection.py:83-91 | for distinct names, the run of updates ends without failure iff every name is a known collection whose checkout can be resolved against its origin |
| CliCollection.RunUpdatesReportsEach | ansible_self_service/l1_entrypoints/cli/collection.py:83-91 | in a run without failure, the i-th report compares the i-th collection's latest revision with its revision before the run |
| CliCollection.RunUpdatesKeepsKeys | ansible_self_service/l1_entrypoints/cli/collection.py:87-91 | any run, failed or not, keeps the set of checkouts |
| CliCollection.RunUpdatesMovesExactly | ansible_self_service/l1_entrypoints/cli/collection.py:83-91 | a run keeps the set of checkouts; the directory of each name it updated moves to its latest revision and every other checkout keeps its value |
| CliCollection.RunUpdatesMovesEachNamed | ansible_self_service/l1_entrypoints/cli/collection.py:83-91 | after a successful run over distinct names, each named checkout is at its latest revision and its report compares that with its revision before |
| CliCollection.RunUpdatesReportsInOrder | ansible_self_service/l1_entrypoints/cli/collection.py:87-91 | the reports of a run name the collections in the order of the names, one per name when nothing failed |
| CliCollection.RunUpdatesStep | ansible_self_service/l3_services/app_catalog.py:31-36 | one call of the service's `update` is one step of the run: a failure ends it there, and a success reports before the rest of the run |
| CliCollection.RunUpdatesAdvance | ansible_self_service/l1_entrypoints/cli/collection.py:87-91 | one more update after earlier reports either ends the whole run with its error or adds its report after the earlier ones |
| CliCollection.ListedNamesAreTheCatalog | ansible_self_service/l1_entrypoints/cli/collection.py:83-86 | the names of a successful listing are exactly the catalog's names, sorted and without repeats, and every collection is initialised with a checkout for a directory |
| Host.FileSystem.Children | ansible_self_service/l4_core/models.py:156 | `iterdir()` gives exactly the existing direct children of a directory |
| Host.FileSystem.RemoveTree | ansible_self_service/l2_infrastructure/git_client.py:25-26 | `shutil.rmtree` deletes the directory and everything within it; a file gives ENOTDIR and a missing path ENOENT |
| Host.FileSystem.Unlink | ansible_self_service/core/models.py:111 | `unlink(missing_ok=True)` deletes a file, ignores a missing path and fails on a directory |
| Host.GitClient.Revision | ansible_self_service/l2_infrastructure/git_client.py:19-20 | a checkout's current revision, or a git error for a directory that is not one |
| Host.GitClient.OriginUrl | ansible_self_service/l2_infrastructure/git_client.py:16-17 | a checkout's origin URL, or a git error |
| Host.GitClient.CloneRepo | ansible_self_service/l2_infrastructure/git_client.py:22-23 | cloning a known remote into a path that does not exist creates the directory with the remote's root files, checked out at the remote's head; anything else fails and changes nothing |
| Host.GitClient.RemoveRepo | ansible_self_service/l2_infrastructure/git_client.py:25-26 | deleting a checkout removes the tree and every checkout within it |
| Host.GitClient.Update | ansible_self_service/l2_infrastructure/git_client.py:31-50 | a checkout moves to the revision resolved against its origin and nothing else changes; an unresolvable update fails and changes nothing |
| Host.WithRootFiles | ansible_self_service/l2_infrastructure/git_client.py:22-23 | a clone adds the remote's root files under the target directory and keeps every other file |
| Text.Strip | ansible_self_service/l2_infrastructure/app_collection_config_parser.py:52 | `str.strip()`: the result is a contiguous part of the input with only whitespace cut from both ends, and it neither starts nor ends with whitespace |
| Text.StripIsSlice | ansible_self_service/l2_infrastructure/app_collection_config_parser.py:52 | `strip()` is `rstrip()` after `lstrip()`: the text left sits right after the leading whitespace, with only whitespace after it |
| Text.StripIdempotent | ansible_self_service/l2_infrastructure/app_collection_config_parser.py:52 | stripping twice is stripping once |
| Text.AfterLast | ansible_self_service/l1_entrypoints/cli/collection.py:46 | `s.split(sep)[-1]`: the longest suffix without the separator |
| Text.BeforeFirst | ansible_self_service/l1_entrypoints/cli/collection.py:47 | `s.split(sep)[0]`: the longest prefix without the separator |
| Text.JoinWithAppend | ansible_self_service/l2_infrastructure/elevate/posix.py:12 | `sep.join` puts exactly one separator before each further part |
| Sorting.Sort | ansible_self_service/l3_services/dto.py:56-59 | `list.sort()` on strings: the result is sorted and a permutation of the input |
| Sorting.SortedPermutationUnique | ansible_self_service/l3_services/dto.py:56-59 | two sorted permutations of the same names are equal |

## Left out

- The manifest file is not read from disk. The model starts from the loaded YAML document, and `yaml.safe_load` is not modelled.
- ManifestSchema.Validate: unknown top-level keys are accepted. cerberus by default also reports them as unknown fields. Only the two type rules of the schema are modelled.
- ManifestSchema.Validate: cerberus orders its error dictionary itself. The model lists field errors in document order.
- ManifestSchema.CategoryNames: a list of category names that holds a non-string is a TypeError here. Python would build a category named by that value.
- Mapping keys in documents are strings only. YAML keys of other types are not modelled.
- The l2 parser's wiring is not modelled as written:
  - it imports `RepoConfig` from `l4_core.models`, which defines none;
  - it returns a `RepoConfig` rather than the `(categories, apps)` pair its protocol promises;
  - it raises its own validation exception class, not the one `AppCollection.refresh` catches.
  The model follows the protocol: the parser gives categories and apps, and a validation failure is the one refresh catches.
- Dto.AppFromDomain: the domain app's status is a parameter. `domain_app.state.status` and the domain `AppStatus` enum are not defined in `l4_core/models.py`. Their four members are taken to have distinct values.
- Host.GitClient.CloneRepo: cloning into any existing path, even an empty directory, fails. GitPython's rules for non-empty targets are not modelled.
- Host.GitClient.Update: only the checked-out revision changes. Working-tree files, fetches and branch tracking are not modelled. The revision an update moves to is a parameter, `resolve`.
- CoreModels.AppCatalog.GetDirectoryForCollection: a collection name is taken as one path component and the result is always a child of the git directory. With `pathlib`, the names `""` and `.` give the git directory itself and `..` its parent, and a name containing `/` gives a deeper path. So in the program, `add("")` finds the git directory present and refuses with already-exists, and `remove("")` deletes the whole git directory and then raises KeyError. The model instead clones into, or deletes, a child with that name. `CliCollection.DeriveName` gives `""` for a URL ending in `/`, so the command can reach this case.
- ResultAnalyzer.HasChanges: `int()` also reads decimal digits outside ASCII (Arabic-Indic or fullwidth digits, for example). The model reads only `0` to `9`, so such a string is a ValueError here. Documents hold no floating-point numbers, so `int()` of a float is not modelled either.
- Documents: a mapping is a list of entries, and nothing forces its keys to be distinct. Loaded YAML and JSON documents always have distinct keys (`Documents.DistinctKeys`), and lookups answer the first entry holding a key.
- Creating the git directory and failures of `iterdir` are not modelled.
- Observable.ObservableObject.SetAttr: the order in which the observer set is iterated is not modelled. Assigning the name-mangled observer set through `__setattr__` is not modelled either.
- CliCollection.Add: the messages printed are not modelled, only the exit codes.
- The `list` and `remove` commands are not modelled. Table rendering and printing are not part of this model.
- CliCollection.UpdateAll: the reports are returned rather than printed.
- Parameters of the model, not modelled themselves:
  - `shlex.quote`, `giturlparse.validate` and `os.execlp`;
  - `os.getuid`, `sys.platform`, `sys.executable`, `sys.argv` and `DISPLAY`.
- ElevatePosix.Elevate: exec either replaces the process or fails with an errno. The PATH search of `execlp` is not modelled.
- Not part of this model: `ansible_runner.py`, `app_state_persister.py`, `factories.py`, `l3_services/app.py`, `cli/__init__.py`, `cli/app.py`, `cli/state.py`, `core/application.py` and `elevate/__init__.py`. They are wiring, process execution and GUI code.
- `list_revisions` is not modelled. It raises NotImplementedError and nothing calls it.
- `AnsibleRunResult.was_successful` is modelled as written (`return_code != 0`). For process exit statuses this is the inverse of the usual convention.
