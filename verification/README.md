# think-library migration generators and admin services in Dafny

This project models the parts of the ThinkAdmin support library (`think-library`) that are pure logic.

- **Phinx migration generator** (`PhinxExtend`):
  - the mapping of a MySQL column type to a Phinx column kind and an ordered option array;
  - the statements generated for each table: skip an existing table, declare it, add one column per non-`id` field, add one index per non-primary index row, save, widen the `id` column;
  - the dispatcher that calls one procedure per table;
  - the resolution of the table and backup sets (`_config`);
  - the versioned script name (`_filename`);
  - the class wrapper of `create2phinx`;
  - the `array2string` options renderer.
- **Install-package generator** (`create2package`): the three-level menu reshaping, the row-count filter on backup tables, and the placeholder substitution in the template. The field fallbacks of `_write2menu`, used when a packaged menu entry is installed, are modelled too.
- **Older generator** (`ToolsExtend::mysql2phinx`): its own weaker type mapping and statement list.
- **System configuration** (`SystemService`):
  - the name syntax `type.field|raw` (`parse`);
  - the cached, HTML-escaping reads of `get`;
  - the writes of `set`: a recursive write for arrays, and a cache flush for scalars;
  - the normalisation and merge of the runtime configuration file (`getRuntime`, `setRuntime`);
  - the run-mode check against the request host (`checkRunMode`).
- **Admin service** (`AdminService`):
  - login and super-user tests;
  - the underscore aliasing of method keys and the node authorisation decision (`check`);
  - the per-user data store (`getUserData`, `setUserData`).

The database, the session, the configuration files, the clock and the directory listing are all inputs. They appear as parameters: a `Connection` describing the tables, a `Session`, a `Store` of configuration rows, the decoded runtime file, today's date, and the sorted list of existing script names. Generated statements are values of a `Stmt` datatype rather than PHP text.

PHP's value semantics are written out where the code depends on them:
- `intval` on strings: leading white space, an optional sign, a digit run, saturation at the 64-bit limits;
- `empty`: `""`, `"0"`, `0`, `null`, `false` and `[]` are empty;
- `array_merge`: integer keys are renumbered and a later string key wins;
- `??`: the default replaces both a missing value and `null`;
- `htmlspecialchars` with the default flags of PHP 8.1 and later (`ENT_QUOTES`, so both quote characters are escaped);
- `var_export` of flat arrays;
- `explode`, `str_replace` and `strtr`;
- leftmost-match `preg_match` for the column-type patterns.

Modules, one per file:
- `Common` (`common.dfy`): `Option`/`Result`, character classes, `explode`/`join`/`str_replace`, and `Subsequence` for "the same elements, in their original order".
- `Numeric` (`numeric.dfy`): digits, `intval`, `str_pad`, `substr`.
- `OrderedMap` (`ordered_map.dfy`): ordered PHP-style arrays.
- `PhpValue` (`php_value.dfy`): PHP values, keys, `empty` and `array_merge`.
- `ArrayLiteral` (`array_literal.dfy`): `var_export` and `array2string`.
- `TypePattern` (`type_pattern.dfy`): the `word(digits[,digits])` regular expressions.
- `PhinxTypes` and `LegacyTypes`: the two type mappings.
- `Migration`: statements, bodies, generators.
- `TableConfig`: `_config`.
- `VersionName`: `_filename`.
- `Package`: `create2package` and `_write2menu`.
- `SystemConfig`: `parse`/`get`/`set`.
- `RuntimeConfig`: runtime file and `checkRunMode`.
- `AdminAuth`: `AdminService`.

Where the code and its documentation disagree, the model follows the code:
- `create2package` calls `_config([], $tables)`. Its `$tables` argument is therefore the requested *backup* list. The migrated tables are always all tables of the database.
- The `enum` branch of the Phinx mapping fires only for the exact type `enum`. A type such as `enum('a','b')` falls through to the pass-through branch and keeps its full text as kind (`PhinxTypes.EnumValuesType`). So do types whose arguments are not digits (`PhinxTypes.NoDigitArgsType`) and sized types the patterns do not name, such as `datetime(3)` or `double(10,2)` (`PhinxTypes.UnmatchedType`).
- In `get` with an empty name, the modifier parsed from the empty name is always empty. The `raw` alternative of that branch therefore cannot be reached, and the whole table is always returned escaped (`SystemConfig.WholeTableEscaped`).
- `set` with an array value recurses with the name `"<field>.<key>"`. The *field* of the original name becomes the type of each write, and the original type is dropped (`SystemConfig.SetGroup`).
- With no configured super user, a session without a user name compares `""` with `"admin"` and is not super (`AdminAuth.DefaultSuperUser`). A configured empty super name would make every anonymous session super.
- `check` allows a node that has no rule at all, because `empty($methods[$current]['isauth'])` holds for a missing entry (`AdminAuth.UnknownNodePasses`).
- A table that the connection cannot describe is reported as `MetadataUnavailable`. In PHP this surfaces as an exception from the database layer.

## Model

| member | source | states |
|---|---|---|
| PhinxTypes.PlainType | src/extend/PhinxExtend.php:164-169 | A type without an argument list (other than `enum`) gets the kind from the type table when listed, and its own name as kind otherwise; the options are default, null flag and comment |
| PhinxTypes.UnmatchedType | src/extend/PhinxExtend.php:201-216 | A type `w(N)` or `w(P,S)` whose word ends in no pattern word for that number of arguments (`datetime(3)`, `bit(1)`, `double(10,2)`) takes no branch: its whole native type is the kind and the options are the base options alone |
| PhinxTypes.NoDigitArgsType | src/extend/PhinxExtend.php:201-216 | A type in which no `(` is followed by a digit, other than the bare `enum`, matches no pattern: the kind comes from the type table or is the type itself, with the base options alone |
| PhinxTypes.EnumValuesType | src/extend/PhinxExtend.php:201-216 | `enum('a','b')` is not the bare `enum`: its kind is `enum('a','b')` and it gets no limit |
| PhinxTypes.NullFlag | src/extend/PhinxExtend.php:201-202 | For every column type the `null` option is true exactly when the column is not NOT NULL, and `comment` is the comment or `''` |
| PhinxTypes.BaseGet | src/extend/PhinxExtend.php:202 | The base options hold the default (null when absent), the negated NOT NULL flag and the comment with `''` as fallback |
| PhinxTypes.PrefixKeepsBase | src/extend/PhinxExtend.php:205-215 | Merging a branch prefix in front of the base options keeps the `null` and `comment` values |
| PhinxTypes.EnumType | src/extend/PhinxExtend.php:203-205 | A bare `enum` maps to kind `string` with `limit` 10 before default, null and comment |
| PhinxTypes.SizedType | src/extend/PhinxExtend.php:206-208 | `varchar(N)`/`char(N)` map to `string`, the blob variants to `binary`, with `limit` = intval(N) as the first option |
| PhinxTypes.IntType | src/extend/PhinxExtend.php:209-212 | `tinyint`…`bigint(N)` map to `integer` with `limit` N first and the default replaced in place by its intval (a missing default becomes 0) |
| PhinxTypes.IntPut | src/extend/PhinxExtend.php:211-212 | Overwriting `default` after the merge keeps the key's position between `limit` and `null` |
| PhinxTypes.FixedType | src/extend/PhinxExtend.php:213-215 | `float(P,S)` and `decimal(P,S)` map to `decimal` with `precision` P and `scale` S before the base options |
| PhinxTypes.SizedMatch | src/extend/PhinxExtend.php:206 | The size pattern finds the type word and its digits in `word(N)…` |
| PhinxTypes.IntMatch | src/extend/PhinxExtend.php:206-209 | An integer type `w(N)` is not caught by the size pattern and is matched by the integer pattern with its word and digits |
| PhinxTypes.IntNotSized | src/extend/PhinxExtend.php:206 | No size-pattern alternative ends an integer type word, so the size pattern cannot match `int(N)` forms |
| PhinxTypes.FixedMatch | src/extend/PhinxExtend.php:206-213 | `float(P,S)`/`decimal(P,S)` escape the two one-number patterns and are matched by the two-number pattern |
| PhinxTypes.KindOfSized | src/extend/PhinxExtend.php:164-169 | The type table sends `varchar`/`char` to `string` and the blob words to `binary` |
| PhinxTypes.KindOfInt | src/extend/PhinxExtend.php:164-169 | The type table sends every integer word to `integer` |
| PhinxTypes.KindOfFixed | src/extend/PhinxExtend.php:213-214 | `float` and `decimal` are not in the type table, so the fallback kind `decimal` is used |
| LegacyTypes.LegacyBase | src/extend/ToolsExtend.php:132 | The older mapping's base options are exactly `default` then `comment` |
| LegacyTypes.LegacyNoNull | src/extend/ToolsExtend.php:129-148 | For every type the older mapping never emits a `null` option and always carries the comment |
| LegacyTypes.LegacyPrefix | src/extend/ToolsExtend.php:136-144 | Merging a branch prefix before the older base options is concatenation |
| LegacyTypes.LongtextFirst | src/extend/ToolsExtend.php:133-134 | Any type containing `longtext` becomes `text`, before every other branch |
| LegacyTypes.StringMatch | src/extend/ToolsExtend.php:135 | The string-size pattern finds the word and digits of `varchar(N)`/`char(N)` |
| LegacyTypes.LegacyString | src/extend/ToolsExtend.php:135-137 | `varchar(N)`/`char(N)` become `string` with `limit` N first |
| LegacyTypes.IntegerNotString | src/extend/ToolsExtend.php:135-138 | A word ending in one of `bigint`/`tinyint`/`int` is never caught by the string pattern |
| LegacyTypes.LegacyInteger | src/extend/ToolsExtend.php:138-141 | Any `…int(N)` word (including `smallint`, `mediumint`, matched through their `int` suffix) becomes `integer` with `limit` N and an intval default |
| LegacyTypes.LegacyDecimal | src/extend/ToolsExtend.php:142-144 | `decimal(P,S)` becomes `decimal` with `precision` P and `scale` S first |
| LegacyTypes.LegacyFloat | src/extend/ToolsExtend.php:142-148 | `float(P,S)` matches no branch of the older mapping and passes through as its own kind |
| LegacyTypes.LegacyPlain | src/extend/ToolsExtend.php:131-132 | A type without arguments and without `longtext` (`mediumtext`, `tinytext`, ...) passes through unchanged |
| LegacyTypes.LegacyUnmatched | src/extend/ToolsExtend.php:131-145 | A type `w(N)` or `w(P,S)` without `longtext` whose word ends in no pattern word for that number of arguments keeps its native type, with the base options alone |
| LegacyTypes.LegacyNoDigitArgs | src/extend/ToolsExtend.php:131-145 | A type without `longtext` in which no `(` is followed by a digit, such as `enum('a','b')`, keeps its native type, with the base options alone |
| TypePattern.Match | src/extend/PhinxExtend.php:206-213 | A `preg_match` hit names one of the alternatives and digit groups of the required shape |
| TypePattern.MatchSound | src/extend/PhinxExtend.php:206-213 | The reported hit really occurs in the subject: the word followed by `(digits)` or `(digits,digits)` |
| TypePattern.MatchComplete | src/extend/PhinxExtend.php:206-213 | Whenever some alternative followed by a well-formed argument list occurs at a position, the search succeeds at that position or earlier (leftmost match) |
| TypePattern.MatchNeedsParen | src/extend/PhinxExtend.php:206-213 | A type without `(` never matches a parameterised pattern |
| TypePattern.MatchNeedsDigits | src/extend/PhinxExtend.php:206-213 | A type in which no `(` is followed by a digit never matches a parameterised pattern |
| TypePattern.MatchWord | src/extend/PhinxExtend.php:206-213 | For `word(args)rest` the pattern matches exactly when the argument shape fits and an alternative is a suffix of the word; the longest such suffix is reported |
| TypePattern.SearchFrom | src/extend/PhinxExtend.php:206-213 | The search returns the first position where an alternative matches, and none when no position matches |
| TypePattern.AltAt | src/extend/PhinxExtend.php:206-213 | At one position the alternatives are tried in pattern order and the reported word is one of them |
| TypePattern.TailAt | src/extend/PhinxExtend.php:206-213 | The `\((\d+)\)` and `\((\d+),(\d+)\)` tails capture non-empty digit groups |
| TypePattern.TailAtArgs | src/extend/PhinxExtend.php:206-213 | A well-formed argument list is read back as exactly its digit groups, and only by the pattern of its own shape |
| TypePattern.SuffixPos | src/extend/PhinxExtend.php:206-213 | The first position from which the rest of the word is an alternative, or none |
| Migration.ColumnStmts | src/extend/PhinxExtend.php:199-219 | Every field yields at most one statement and every statement is an `addColumn` |
| Migration.ColumnStmtsExact | src/extend/PhinxExtend.php:199-219 | An `addColumn(c)` is generated exactly when some non-`id` field maps to `c` |
| Migration.ColumnStmtsAppend | src/extend/PhinxExtend.php:199-219 | Field order is kept: the statements of a concatenation are the concatenated statements |
| Migration.NoIdColumn | src/extend/PhinxExtend.php:200 | No generated column is named `id` |
| Migration.NameKept | src/extend/PhinxExtend.php:217-218 | A generated column keeps its field's name |
| Migration.ColumnCount | src/extend/PhinxExtend.php:199-200 | The number of columns is the number of fields minus the `id` fields |
| Migration.IndexStmtsExact | src/extend/PhinxExtend.php:221-228 | An `addIndex` is generated exactly for a non-`PRIMARY` row, on its column, named `idx_<Table>_<Column>` |
| Migration.IndexStmtsAppend | src/extend/PhinxExtend.php:221-228 | Index rows keep their order |
| Migration.BodyOpens | src/extend/PhinxExtend.php:186-198 | A body starts with the `hasTable` guard and the InnoDB/utf8mb4 table declaration carrying the table comment; the guard occurs nowhere else |
| Migration.BodyCloses | src/extend/PhinxExtend.php:229-231 | The Phinx body ends with `save()` then the `id` widening; the older body ends with `save()` and never widens `id` |
| Migration.BodyOrder | src/extend/PhinxExtend.php:199-229 | Every column statement precedes every index statement, which precedes `save()` |
| Migration.NotMysql | src/extend/PhinxExtend.php:155-157 | A non-MySQL connection is rejected with an error and no document |
| Migration.BuildShape | src/extend/PhinxExtend.php:159-233 | On MySQL, a document exists exactly when every table is described; it has one dispatcher call and one procedure per table, in order, each with that table's body |
| Migration.FirstMissing | src/extend/PhinxExtend.php:199 | Reports a table the connection cannot describe, and none exactly when all are described |
| Migration.DispatcherNames | src/extend/PhinxExtend.php:160 | The dispatcher calls `_create_<table>` (Phinx) or `_<table>_change` (older generator) |
| Migration.PhinxTables | src/extend/PhinxExtend.php:158-160 | The Phinx generator emits a procedure for exactly the resolved tables: requested (or all), minus ignored and `migrations` |
| Migration.LegacyAllTables | src/extend/ToolsExtend.php:88-92 | The older generator uses every table of the connection when the list is null or empty |
| Migration.CreateNamesFile | src/extend/PhinxExtend.php:135-142 | `create2phinx` fails exactly when generation fails; otherwise it carries the generated document under a name starting with the date whose sequence, while the last script's sequence is below 999999, is one past it |
| Migration.WrapReplacesOpening | src/extend/PhinxExtend.php:138-140 | The generated opening line is replaced by a header declaring the migration class, and the class is closed at the end |
| Migration.ColumnParams | src/extend/PhinxExtend.php:216-218 | The options text of a column is its short array literal, identical to what `array2string` produces |
| Migration.OptionsNonEmpty | src/extend/PhinxExtend.php:202 | Column options are never empty, so the empty-array defect of `array2string` is not reached by the generators |
| Migration.IndexParams | src/extend/PhinxExtend.php:223-226 | The options text of an index is its short array literal, identical to `array2string`'s |
| ArrayLiteral.ExportCollapse | src/extend/PhinxExtend.php:257 | Collapsing white space in the `var_export` text gives `array (`, each element as ` 'key' => value,`, and ` )` |
| ArrayLiteral.Array2StringShort | src/extend/PhinxExtend.php:255-258 | For a non-empty array the result is `[ `, the element texts (white space runs collapsed) joined by `, `, and ` ]` |
| ArrayLiteral.CollapseCompact | src/extend/ToolsExtend.php:169 | After the `\s+` replacement the only white space left is single spaces |
| ArrayLiteral.CollapseIdempotent | src/extend/ToolsExtend.php:169 | Applying the `\s+` replacement twice equals applying it once |
| ArrayLiteral.CollapseAppend | src/extend/ToolsExtend.php:169 | The replacement distributes over a concatenation whose seam is not inside a white space run |
| ArrayLiteral.LinesCollapse | src/extend/PhinxExtend.php:257 | The element lines collapse to one ` element,` per element |
| ArrayLiteral.EntryUnchanged | src/extend/PhinxExtend.php:257 | An element text that is already compact survives the replacement unchanged |
| ArrayLiteral.Array2StringEmpty | src/extend/PhinxExtend.php:255-258 | As written, the empty array renders as `[ )` |
| ArrayLiteral.Array2StringFixedShort | src/extend/PhinxExtend.php:255-258 | With the comma optional in step 2 the empty array renders as `[ ]` and every other array as before |
| TableConfig.Unique | src/extend/PhinxExtend.php:245 | `array_unique` yields a duplicate-free list with the same members, in their original order |
| TableConfig.UniqueKeepsOrder | src/extend/PhinxExtend.php:245 | `array_unique` keeps first occurrences in their original order |
| TableConfig.UniqueIdempotent | src/extend/PhinxExtend.php:246 | Applying `array_unique` again changes nothing |
| TableConfig.Without | src/extend/PhinxExtend.php:245 | `array_diff` keeps exactly the members not in the removed list, in their original order, without creating duplicates |
| TableConfig.Within | src/extend/PhinxExtend.php:246 | `array_intersect` keeps exactly the members also in the other list, in their original order, without creating duplicates |
| TableConfig.ResolvedTables | src/extend/PhinxExtend.php:242-248 | The resolved tables are duplicate-free, are exactly the requested (or all) tables that are neither ignored nor `migrations`, and keep the requested order |
| TableConfig.ResolvedBackup | src/extend/PhinxExtend.php:246-247 | The backup set is duplicate-free, in the order of the resolved tables, and is exactly the resolved tables that were requested as backups or configured as backups |
| VersionName.NextVersion | src/extend/PhinxExtend.php:267-272 | The sequence text is always at least six characters |
| VersionName.FirstScript | src/extend/PhinxExtend.php:271-273 | In an empty directory the name is date, `000001_`, snake class name, `.php` |
| VersionName.SixDigits | src/extend/PhinxExtend.php:269 | A sequence number below a million is padded to exactly six digits that read back as the number |
| VersionName.SequenceIncrements | src/extend/PhinxExtend.php:265-274 | While the last sequence is below 999999, the sequence read back from the new name is one more than the last script's; it is 1 in an empty directory |
| VersionName.SequenceRollOver | src/extend/PhinxExtend.php:268-269 | After sequence 999999 the new name carries `1000000`, which reads back as 100000 |
| Package.ShapeMenu | src/extend/PhinxExtend.php:288-301 | The packaged menu has one entry per root |
| Package.ShapeRoundTrip | src/extend/PhinxExtend.php:289-301 | Reading a reshaped top-level entry back gives exactly the first three levels of the tree: `name` is the title, and icon, url, node, params and order are kept |
| Package.MiddleRoundTrip | src/extend/PhinxExtend.php:291-299 | The same for a second-level entry and its first two levels |
| Package.NoEmptySubs | src/extend/PhinxExtend.php:297-300 | An entry has `subs` exactly when the node has children, and `subs` is never empty |
| Package.ExtraExact | src/extend/PhinxExtend.php:304-308 | A table is in the payload exactly when it is a backup table with rows, paired with its packed rows |
| Package.ExtraAppend | src/extend/PhinxExtend.php:304-308 | The payload keeps the order of the backup tables |
| Package.PackageTables | src/extend/PhinxExtend.php:303-308 | The packaged tables are exactly the non-ignored, non-`migrations` tables of the database that were requested or configured as backups and hold rows |
| Package.SubstituteSteps | src/extend/PhinxExtend.php:310-312 | The three placeholders are replaced everywhere, in order, each in the result of the previous replacement |
| Package.SubstituteAbsent | src/extend/PhinxExtend.php:312 | A template without placeholders is returned unchanged |
| Package.MenuFallbacks | src/extend/PhinxExtend.php:114-126 | A written menu row's url is never empty, falling back to the node and then `#`; its node falls back to the url and is empty only when both are; the target defaults to `_self` |
| Package.TopWrite | src/extend/PhinxExtend.php:114-126 | Writing a packaged top-level entry sets the title from `name`, keeps icon and params, and keeps url and node when not empty |
| Package.ExportThenWrite | src/extend/PhinxExtend.php:289-290 | Packaging a menu node and installing it restores its title, icon, parameters, and non-empty url and node |
| SystemConfig.ParsePlain | src/service/SystemService.php:115-122 | Without a dot the type is `base`; the field is the text before the first bar and the modifier is the lower-cased text after it, or empty |
| SystemConfig.ParseField | src/service/SystemService.php:117-121 | `type.field` parses to that type and field with an empty modifier |
| SystemConfig.ParseDotted | src/service/SystemService.php:117-121 | A dotted name with a bar modifier parses to the type, the field and the lower-cased modifier |
| SystemConfig.ParseIgnoresThird | src/service/SystemService.php:118 | Dot segments after the second are ignored |
| SystemConfig.EscapeRoundTrip | src/service/SystemService.php:72-78 | HTML escaping is undone by unescaping |
| SystemConfig.EscapeSafe | src/service/SystemService.php:72-78 | Escaped text contains none of `<`, `>`, `"`, `'` |
| SystemConfig.EscapeAll | src/service/SystemService.php:72-74 | Escaping a whole table keeps every key in its place; each value unescapes back to the stored value and contains none of `<`, `>`, `"`, `'` |
| SystemConfig.LoadLookup | src/service/SystemService.php:67-69 | The cache built from the rows answers a type and field with the last row's value for them |
| SystemConfig.SaveLast | src/service/SystemService.php:93-107 | Saving under a field without a comma makes the saved value the one read for that type and field and leaves the others alone |
| SystemConfig.UpdateLast | src/service/SystemService.php:97-100 | Updating renames every row of the type named by one of the pieces: another piece then reads as unset, the new name reads the new value when it is one of the pieces, and every other type and name reads as before |
| SystemConfig.SavePieces | src/service/SystemService.php:96-100 | Saving under `a,b` when a row of the type is named `a` renames that row, so `a` no longer reads |
| SystemConfig.CacheTransparent | src/service/SystemService.php:65-80 | A read from a coherent cache answers as a read from the rows and keeps the cache coherent |
| SystemConfig.SetCoherent | src/service/SystemService.php:44-55 | Writes keep the cache coherent; a scalar write empties it |
| SystemConfig.ReadAfterSave | src/service/SystemService.php:44-55 | After a scalar write to a field without a comma, the refilled cache reflects it for that type and field only |
| SystemConfig.GetAfterSetRaw | src/service/SystemService.php:76-77 | Reading a field without a comma with the `raw` modifier after writing it returns the written value unescaped |
| SystemConfig.GetAfterSetEscaped | src/service/SystemService.php:76-77 | Reading `type.field` (no comma in the field) after writing it returns the value HTML-escaped |
| SystemConfig.GetAfterSetOther | src/service/SystemService.php:44-80 | A write to a field without a comma does not change what any other type or field reads |
| SystemConfig.GetAfterSetPiece | src/service/SystemService.php:44-55 | `set('t.a,b', x)` over a stored `t.a` renames it, so `get('t.a')` returns the empty string |
| SystemConfig.RawRead | src/service/SystemService.php:75-79 | A raw read of a field returns the stored value, or `''` when the type or field is absent |
| SystemConfig.WholeTableEscaped | src/service/SystemService.php:71-74 | An empty name returns the whole `base` table escaped element-wise, or `[]` when it is absent or empty |
| SystemConfig.SetGroup | src/service/SystemService.php:47-48 | Writing an array of leaf entries whose keys hold no `.`, bar or `,` under `f` stores each key as field of type `f`; the last entry for a key wins |
| SystemConfig.SetEntriesLast | src/service/SystemService.php:47-48 | For leaf entries whose keys hold no dot, bar or comma, after the recursive writes every key reads back its last written value, and other keys keep theirs |
| RuntimeConfig.Normalize | src/service/SystemService.php:240-243 | A read always yields an array `app_map` and a non-empty string `app_run` |
| RuntimeConfig.NormalizeKeeps | src/service/SystemService.php:240-244 | Every entry other than `app_map` and `app_run` is read as stored |
| RuntimeConfig.NormalizeKeepsValid | src/service/SystemService.php:241-243 | A file with a non-empty array `app_map` and a non-empty string `app_run` is read unchanged |
| RuntimeConfig.NormalizeIdempotent | src/service/SystemService.php:237-245 | Normalising a normalised configuration changes nothing |
| RuntimeConfig.NormalizeFixed | src/service/SystemService.php:241-243 | Any array with an array `app_map` and a valid `app_run` is a fixed point of the read |
| RuntimeConfig.GetRuntimeShape | src/service/SystemService.php:237-245 | `getRuntime('app_run')` is a non-empty string and `getRuntime('app_map')` is an array |
| RuntimeConfig.SetRunReadBack | src/service/SystemService.php:220-230 | After a write, `app_run` reads back as the given run (`developer` if that is empty) or, when none is given, as before |
| RuntimeConfig.SetMapCleared | src/service/SystemService.php:227 | A null map resets `app_map` to the empty array |
| RuntimeConfig.SetMapNewKey | src/service/SystemService.php:222-227 | Existing entries whose value occurs in the new map are removed before merging, and every non-numeric string key of the new map gets its new value |
| RuntimeConfig.SetMapOldKey | src/service/SystemService.php:222-227 | A non-numeric string key only the old map has survives exactly when its value does not occur among the new values |
| RuntimeConfig.DropValues | src/service/SystemService.php:222-224 | Removal keeps exactly the entries whose value is not among the dropped values, in their original order |
| RuntimeConfig.SetRuntimeStable | src/service/SystemService.php:220-245 | With a non-empty run, what is written reads back unchanged as the whole configuration |
| RuntimeConfig.DevIsLocalOrDemo | src/service/SystemService.php:195 | Mode `dev` holds exactly when `local` or `demo` holds |
| RuntimeConfig.DemoIgnoresCase | src/service/SystemService.php:192-193 | The demo test ignores letter case; the local test does not |
| RuntimeConfig.DemoSubdomain | src/service/SystemService.php:192 | Any host containing the demo domain counts as demo |
| RuntimeConfig.UnknownModeHolds | src/service/SystemService.php:197 | Any other mode always holds |
| AdminAuth.AnonymousNotLoggedIn | src/service/AdminService.php:43-46 | A session without a user id is not logged in |
| AdminAuth.LoginFromText | src/service/AdminService.php:70-73 | A session id stored as the text of an integer is logged in exactly when the integer is positive |
| AdminAuth.DefaultSuperUser | src/service/AdminService.php:52-64 | With no configured super name, user `admin` is super and a session without a name is not |
| AdminAuth.RemoveUnderscores | src/service/AdminService.php:147 | `strtr` with `_` to `''` leaves no underscore and keeps every other character |
| AdminAuth.AliasKeepsKeys | src/service/AdminService.php:143-149 | Aliasing keeps every original method key |
| AdminAuth.AliasUntouched | src/service/AdminService.php:143-149 | A key that no matching entry aliases keeps its rule |
| AdminAuth.AliasWritten | src/service/AdminService.php:143-149 | A matching entry's alias holds that entry's rule unless a later entry writes the same alias |
| AdminAuth.AliasProperties | src/service/AdminService.php:143-149 | The aliasing facts for the whole method map: originals kept, aliases written, others untouched |
| AdminAuth.AliasOfPieces | src/service/AdminService.php:145-148 | The alias rejoins the `/` segments with underscores removed from the second only |
| AdminAuth.AliasTwoSegments | src/service/AdminService.php:145-148 | `a/b` is aliased to `a/` plus `b` without underscores |
| AdminAuth.AliasThreeSegments | src/service/AdminService.php:145-148 | `a/b/c` is aliased to `a/`, `b` without underscores, `/c`: later segments are untouched |
| AdminAuth.MatchesSecondSegment | src/service/AdminService.php:144 | A key with an underscore after a `/` matches `#.*?/.*?_.*?#` |
| AdminAuth.SuperPasses | src/service/AdminService.php:156 | The super user passes every node |
| AdminAuth.CheckByRule | src/service/AdminService.php:158-162 | For others an `isauth` node passes exactly when granted; any other node passes unless it needs a login the session lacks |
| AdminAuth.UnknownNodePasses | src/service/AdminService.php:158-159 | A node without any rule passes |
| AdminAuth.AliasedNodeChecked | src/service/AdminService.php:143-162 | An underscore-free alias is checked against the original entry's rule |
| AdminAuth.MoreNodesMorePass | src/service/AdminService.php:158-162 | Granting more nodes never revokes access |
| AdminAuth.LoginMorePass | src/service/AdminService.php:158-162 | Logging in never revokes access |
| AdminAuth.GetUserDataMissing | src/service/AdminService.php:90-94 | A missing field reads as the default; no field reads the whole data |
| AdminAuth.ReplaceThenGet | src/service/AdminService.php:103-107 | After a replacing write the whole data reads back as what was written |
| AdminAuth.MergeThenGetNew | src/service/AdminService.php:103-107 | After a merging write a written field with a non-numeric string key reads back its new value (the default when it is null) |
| AdminAuth.MergeThenGetOld | src/service/AdminService.php:103-107 | After a merging write a field with a non-numeric string key that was not written reads as before |
| AdminAuth.SetUserDataOthers | src/service/AdminService.php:103-107 | Writing one user's data leaves every other stored entry unchanged |
| Numeric.IntValIntToString | src/extend/PhinxExtend.php:211 | `intval` of an integer's decimal text is that integer |
| Numeric.IntValDigits | src/extend/PhinxExtend.php:207 | `intval` of a digit string is its value, saturated at the 64-bit maximum |
| Numeric.NatToStringValue | src/extend/PhinxExtend.php:268 | `strval` of a natural number reads back as the number |
| Numeric.Clamp | src/extend/PhinxExtend.php:207 | `intval` saturates: the result lies within the 64-bit range and equals the input inside it |

## Left out

- Database access is not modelled. The model takes as inputs what the database layer returns: the table list, `information_schema` comments, `getFields`, `show index`, row counts and packed rows, and the menu rows.
- `SystemService::save` is reduced to its effect on the configuration rows: the rows of the type whose name is one of the comma-separated pieces of the field are rewritten, or one row is appended. The value it returns is not modelled. Type and name are compared exactly, as under a binary collation. The generated tables use `utf8mb4_general_ci`, under which MySQL ignores letter case and trailing spaces, so `set('base.Site', x)` over a stored `base.site` would find and rename that row; the model does not cover such case or space variants.
- SystemConfig.SaveLast: stated for a field without a comma. For a field with a comma, the rows named by its pieces are renamed to the whole field (`SystemConfig.SavePieces`). What the whole field then reads depends on where older rows already carrying that name sit, and the model states nothing about it. Names are compared exactly: under the case-insensitive collation of the configuration table a save also renames rows whose type or name differs only in letter case or trailing spaces, which the model does not cover.
- SystemConfig.ReadAfterSave: stated for a field without a comma, and with names compared exactly, for the reasons given for `SystemConfig.SaveLast`; a name differing from the written one only in letter case or trailing spaces is not covered.
- SystemConfig.GetAfterSetRaw: stated for a field without a comma, for the reason given for `SystemConfig.SaveLast`.
- SystemConfig.GetAfterSetEscaped: stated for a field without a comma, for the reason given for `SystemConfig.SaveLast`.
- SystemConfig.GetAfterSetOther: stated for a field without a comma. A comma field also changes what its pieces read (`SystemConfig.GetAfterSetPiece`). Names are compared exactly: a name differing from the written one only in letter case or trailing spaces, which the case-insensitive collation would rename, is not covered.
- SystemConfig.SetGroup: stated for leaf entries whose keys hold no `.`, `|` or `,`. A key `a.b` is stored as field `a` (the third segment is dropped, `SystemConfig.ParseIgnoresThird`), a key `a|x` is stored as field `a`, a key `a,b` renames the rows named `a` or `b` (`SystemConfig.SavePieces`), and a nested array recurses into the key as type; none of these is stated.
- SystemConfig.SetEntriesLast: stated for leaf entries whose keys hold no `.`, `|` or `,`, for the reasons given for `SystemConfig.SetGroup`.
- `SystemService::getData`/`setData` are serialisation into the database. The per-user data store is modelled as a map from key to array.
- `highlight_string` and the exact PHP text of the generated statements are not modelled. Statements are `Stmt` values. The `create2phinx` wrapper is modelled on text separately (`Migration.WrapReplacesOpening`).
- `Str::studly`, `Str::snake`, `date()`, `glob`, reading `package.stud`, `CodeExtend::enzip` and `json_encode` are left out. They are library, clock or file calls, so their results are parameters.
- `DataExtend::arr2tree` is not part of this model. The menu arrives as a tree.
- `write2menu` (the loop over a packaged menu with its database guard), `copyfile` and `removeEmptyDirectory` are left out. They are database and filesystem work; the per-entry row `_write2menu` is modelled.
- The runtime file's reading and writing (`file_exists`, `json_decode`, `file_put_contents`) are left out. The decoded value is an input and the written array is the result.
- `productMode`, `bindRuntime`, `sysuri`, `putDebug` and `setOplog` are left out. They touch the application object, the router or files.
- The `admin_check_filter` hook of `check` is left out. It is user code that can override the whole decision.
- `getTree`, `getUserTheme`/`setUserTheme` and the upload-token and session methods of `AdminService` are left out. They depend on NodeService, the session, caches or encryption.
- `NodeService::getMethods` and `fullNode` are left out. The method map and the current node are inputs.
- `ToolsExtend::text2utf8` and `src/Builder.php` are not part of this model.
- Numeric.IntValDigits: `intval` reads leading white space, a sign and a digit run only. For a numeric string in float or exponent notation (`"1.5e3"`) PHP converts through a float and gives 1500, while the model stops at the first non-digit and gives 1. Column sizes are always digit runs; only an unusual integer default can differ.
- AdminAuth.CheckByRule: the session node list is searched by strict equality. `in_array`'s loose comparison also treats two different numeric strings as equal (`'1e1'` and `'10'`), and it differs for non-string nodes. Node names are paths such as `admin/user/index`, which are never numeric.
- SystemConfig.EscapeSafe: assumes PHP 8.1 or later. Before 8.1 the default flag of `htmlspecialchars` is `ENT_COMPAT`, which leaves `'` unescaped; `SystemConfig.EscapeAll` assumes the same.
- VersionName.SequenceIncrements: holds only while the last sequence is below 999999. After that the new name carries seven digits and only six are read back, so the sequence drops to 100000 (`VersionName.SequenceRollOver`). A last name with `-` at position 8 (`xxxxxxxx-5_a.php`) reads as a negative sequence, whose successor is padded to `0000-4` and reads back as 0; this is not stated either.
- Migration.CreateNamesFile: the sequence part holds only while the last sequence is between 0 and 999998, for the reasons given for `VersionName.SequenceIncrements` (`VersionName.SequenceRollOver` shows the roll-over).
- PhinxTypes.NullFlag: the schema's `notnull` is taken as a boolean. PHP's `empty` on other encodings of the flag is not modelled.
- `null` default values are exported as `NULL` by `var_export`. Float values and nested arrays never occur in the options arrays, so `var_export` is modelled only for null, booleans, integers and strings.

## Findings

| source | as written | input that shows it | evidently intended | confidence | as-written member | corrected member |
|---|---|---|---|---|---|---|
| src/extend/PhinxExtend.php:255-258 (same in src/extend/ToolsExtend.php:167-170) | The `#, \)$#` replacement needs a trailing comma, which `var_export` only prints after an element, so the empty array keeps its `)` while the opening becomes `[ ` | `array2string([])`: `array (\n)` collapses to `array ( )` and becomes `[ )` | `[ ]`, a valid empty short array | not executed; the generators never pass an empty array (`Migration.OptionsNonEmpty`), so only direct callers of the public method see it | ArrayLiteral.Array2StringEmpty | ArrayLiteral.Array2StringFixedShort |
