# Subgraph scaffold: manifest fragments and scaffold helpers

A Dafny model of the part of the subgraph command line that renders a new
data source for the manifest and lays out the generated scaffold:

- `source` and `mapping`, the Ethereum protocol's text templates for the
  `source:` and `mapping:` blocks of a data source (`EthereumManifest`);
- `toKebabCase`, which turns the contract name into the handler file name
  with a global regular expression (`KebabCase`, and what it makes of the
  usual shapes of a contract name in `KebabCaseShapes`);
- `addDatasource` and `addDatasource2`, the data source entry as manifest
  text and as an immutable map; `addABIs`, the ABI file map; and
  `writeScaffoldDirectory`, the recursive walk that writes a scaffold object
  to disk (`ScaffoldHelpers`);
- `Results` (a failure-compatible result for JavaScript exceptions) and
  `Text` (`Array.prototype.join`, `String.prototype.split` on one character,
  prefixes, and the algebra between them).

Templates are modelled as their lines joined with line breaks. Each renderer
is paired with a line parser that reads the fragment back into a record, and
the round trip is proved. The regular expression is modelled as a literal
matcher: at each position the four alternatives are tried in order, with the
backtracking of `[A-Z]{2,}` against its lookahead. A closed form of that
branch is proved. Three consequences follow:

- `HTMLParser` becomes `html-parser`;
- in `ERC20Token` the acronym branch fails, so the first token is `E`;
- a name with no ASCII letter or digit makes `.match` return `null` and the
  call throw, modelled as `Err`.

`writeScaffoldDirectory` is modelled as a depth-first ordering of the
`mkdirs` and `writeFile` operations it issues. The scaffold object is a tree of entries
whose values are a string, `null` or a nested object.

## Model

| member | source | states |
|---|---|---|
| KebabCase.MatchAt | src/protocols/ethereum/scaffold/manifest.js:31 | at each position the expression matches exactly when the character is an ASCII letter or digit, and the match holds only letters and digits |
| KebabCase.Tokens | src/protocols/ethereum/scaffold/manifest.js:31 | every element of the match array is a non-empty run of ASCII letters and digits |
| KebabCase.AcronymBacktrack | src/protocols/ethereum/scaffold/manifest.js:31 | `[A-Z]{2,}` backtracks to the longest length of at least two at which the lookahead holds (a capitalised lower-case word or a word boundary follows); it fails only when no such length exists |
| KebabCase.AcronymClosedForm | src/protocols/ethereum/scaffold/manifest.js:31 | an upper-case run of two or more letters is taken whole before a non-word character or the end, loses its last letter before a lower-case letter when it has three or more letters, and otherwise the branch fails |
| KebabCase.TokensCoverAlnum | src/protocols/ethereum/scaffold/manifest.js:31 | the tokens, concatenated, are exactly the name's ASCII letters and digits in order; every other character is dropped |
| KebabCase.TokenShapes | src/protocols/ethereum/scaffold/manifest.js:31 | every token has the shape of one of the four alternatives: acronym, capitalised or lower-case word with trailing digits, single capital, or digit run |
| KebabCase.LowerCase | src/protocols/ethereum/scaffold/manifest.js:32 | every upper-case ASCII letter becomes the lower-case letter at the same place in the alphabet, every other character is kept, and no upper-case letter remains |
| KebabCase.ToKebabCase | src/protocols/ethereum/scaffold/manifest.js:29-34 | `toKebabCase` throws exactly when the name holds no ASCII letter or digit; the shape of its result is stated by TokensCoverAlnum, KebabSegments, KebabAlphabet and KebabLetters |
| KebabCase.KebabSegments | src/protocols/ethereum/scaffold/manifest.js:29-34 | the result splits on `-` into the lower-cased tokens, in order; no segment is empty, and the text neither starts nor ends with `-` |
| KebabCase.KebabAlphabet | src/protocols/ethereum/scaffold/manifest.js:32-33 | the result holds only lower-case letters, digits and `-`, so it has no upper-case letter |
| KebabCase.KebabLetters | src/protocols/ethereum/scaffold/manifest.js:29-34 | removing the dashes leaves the name's letters and digits, lower-cased, in their original order |
| KebabCaseShapes.PascalCaseTokens | src/protocols/ethereum/scaffold/manifest.js:31 | a name written as capitalised words (`MyContract`) is cut into exactly those words |
| KebabCaseShapes.PascalCaseKebab | src/protocols/ethereum/scaffold/manifest.js:29-34 | such a name becomes its words, lower-cased and joined by `-` (`my-contract`) |
| KebabCaseShapes.AcronymBeforeWord | src/protocols/ethereum/scaffold/manifest.js:31 | an acronym of two or more capitals before a capitalised word (`HTMLParser`) gives its last capital back to the word: the tokens are the acronym and the word |
| KebabCaseShapes.TokensDigits | src/protocols/ethereum/scaffold/manifest.js:31 | a run of digits is one token, taken whole |
| KebabCaseShapes.CapitalsNumberWord | src/protocols/ethereum/scaffold/manifest.js:29-34 | in a run of capitals before a number and a word (`ERC20Token`) each capital is a token of its own, so the result is `e-r-c-20-token` |
| EthereumManifest.Source | src/protocols/ethereum/scaffold/manifest.js:4-6 | the text is the template literal: a line break, `address:` with the address in single quotes, a line break, `abi:` with the contract name; SourceLines and SourceRoundTrip read it back |
| EthereumManifest.SourceLines | src/protocols/ethereum/scaffold/manifest.js:4-6 | the source fragment is a blank line, an `address:` line with the address in single quotes, and an `abi:` line with the contract name |
| EthereumManifest.SourceRoundTrip | src/protocols/ethereum/scaffold/manifest.js:4-6 | the source fragment reads back as exactly the given address and contract name |
| EthereumManifest.Mapping | src/protocols/ethereum/scaffold/manifest.js:8-27 | rendering the mapping fails exactly when the contract name has no ASCII letter or digit, because `toKebabCase` throws |
| EthereumManifest.MappingText | src/protocols/ethereum/scaffold/manifest.js:8-27 | the text is the template literal: a line break, the fixed header, the entity items joined by a line break and eight spaces, the one ABI, the handler items joined with nothing between them, and the handler file; MappingTextLayout and MappingRoundTrip read it back |
| EthereumManifest.MappingTextLayout | src/protocols/ethereum/scaffold/manifest.js:8-27 | the mapping fragment's lines: the fixed header, one `- <alias>` line per event (or one blank indented line), the single ABI, then one `event:` and `handler:` line pair per event, and the handler file |
| EthereumManifest.EntityBlockLines | src/protocols/ethereum/scaffold/manifest.js:13-15 | the entity list is one `        - <alias>` line per event, in event order |
| EthereumManifest.HandlerBlockLines | src/protocols/ethereum/scaffold/manifest.js:20-26 | the handler list is one `- event: <signature>` and `handler: handle<alias>` line pair per event, in event order |
| EthereumManifest.MappingRoundTrip | src/protocols/ethereum/scaffold/manifest.js:8-27 | the mapping reads back as: kind `ethereum/events`, API version `0.0.5`, language `wasm/assemblyscript`; the aliases as entities in order; exactly one ABI named after the contract with file `./abis/<name>.json`; the handlers in event order; and file `./src/<kebab-case name>.ts` |
| EthereumManifest.EntitiesMatchHandlers | src/protocols/ethereum/scaffold/manifest.js:12-26 | the mapping declares as many entities as event handlers, one per event, and exactly one ABI |
| ScaffoldHelpers.AddDatasource | src/command-helpers/scaffold.js:10-17 | the text is the template literal for any arguments, line breaks included: `  -kind: <kind>`, then `name`, `network`, `source` and `mapping` lines indented by four spaces, each followed by a line break |
| ScaffoldHelpers.DatasourceLayout | src/command-helpers/scaffold.js:10-17 | the entry is five lines in order, first `  -kind: <kind>`, then `name`, `network`, `source` and `mapping` indented by four spaces; it ends with a line break |
| ScaffoldHelpers.DatasourceRoundTrip | src/command-helpers/scaffold.js:10-17 | the entry text reads back as the five arguments, unchanged and in order |
| ScaffoldHelpers.AddDatasource2 | src/command-helpers/scaffold.js:19-28 | the map has exactly the keys kind, name, network, source and mapping, and each key reads back as its own argument |
| ScaffoldHelpers.Datasource2Complete | src/command-helpers/scaffold.js:21-27 | a map with exactly those five keys is the one built from its own values |
| ScaffoldHelpers.DatasourceFormsAgree | src/command-helpers/scaffold.js:10-28 | the text entry and the map entry carry the same five fields |
| ScaffoldHelpers.FromEntry | src/command-helpers/scaffold.js:21-27 | reading the five fields of a map succeeds exactly when all five keys are present |
| ScaffoldHelpers.AddAbis | src/command-helpers/scaffold.js:59-65 | the ABI map has exactly one key, `<contractName>.json`, bound to the formatted ABI |
| ScaffoldHelpers.AbiFileNamedInMapping | src/command-helpers/scaffold.js:59-65 | that key, under `./abis/`, is the file the mapping fragment names for the contract's one ABI |
| ScaffoldHelpers.PathJoin | src/command-helpers/scaffold.js:95 | the joined path starts with the directory and a separator, and the basename can be read back from what follows |
| ScaffoldHelpers.Plan | src/command-helpers/scaffold.js:89-108 | the directory is created first, and every later operation lies below it |
| ScaffoldHelpers.EntriesPlan | src/command-helpers/scaffold.js:93-105 | every operation for an object's entries lies below the object's directory |
| ScaffoldHelpers.NestedPlanContiguous | src/command-helpers/scaffold.js:89-108 | in the depth-first ordering, the operations for every nested object form one uninterrupted run starting with its own `mkdirs`; what carries over to the source is that each directory's `mkdirs` completes before any operation for its entries, since each call first awaits `mkdirs` |
| ScaffoldHelpers.PlanOps | src/command-helpers/scaffold.js:89-108 | a directory is created exactly at the target and at every nested object's key path, and a file is written exactly at every string's key path, with that string as content |
| ScaffoldHelpers.WritesAreFiles | src/command-helpers/scaffold.js:94-99 | a write of given content to a path is issued exactly when the scaffold holds that string at that key path |
| ScaffoldHelpers.DirsAreObjects | src/command-helpers/scaffold.js:102-103 | a nested directory is created exactly where the scaffold holds an object, at `dir/basename` |
| ScaffoldHelpers.NullSkipped | src/command-helpers/scaffold.js:100-101 | a `null` value contributes no operation: the plan is the same without that entry |
| ScaffoldHelpers.OneWritePerFile | src/command-helpers/scaffold.js:93-105 | the walk issues one write per string value of the scaffold, nested ones included, and no other write |

## Left out

- `src/commands/add.js` is not part of this model. Its live code only validates that an address was given, forces `indexEvents` on, defaults the contract name to `Contract`, and calls `fs.readFile` for `--abi` without a callback, which throws, and otherwise logs `null`; the manifest update after that is commented out.
- `abiEvents` and `ABI.eventSignature` are not part of this model. An event arrives as its alias and its signature.
- `prettier.format` and `JSON.stringify` in `addABIs` are foreign calls. The formatted ABI is a parameter.
- `generateScaffold`, `writeABI`, `writeSchema` and `writeScaffold` only call other code or the file system. They are not modelled.
- The file system, `console.log`, the spinner and the promises are not modelled. `writeScaffoldDirectory` is a depth-first ordering of the operations it issues. The source starts every entry's callback at once and does not await the recursive call, so it issues a nested object's contents after its later siblings; the operations are the same, in a different order. The only ordering the model states is by position in the tree: each object's directory, the target's and every nested one's, is created before the operations for its entries (Plan, NestedPlanContiguous). A key holding `/` can name a path below a sibling directory that is created later; the model does not order operations by path.
- `path.join` normalisation (`..`, repeated or trailing `/`) is not modelled. Joining is `dir + "/" + name`.
- Object key order is the order of the entries. JavaScript lists integer-like keys first; the model does not reorder them.
- The scaffold tree has strings, `null` and objects. A number or boolean value has no own keys, so it is written as the empty object `Dir([])`.
- Whether the rendered fragments are well-formed YAML is not modelled. The line parsers read back exactly the layout the templates produce.
- EthereumManifest.SourceRoundTrip: assumes the address and the contract name hold no line break. A line break would change the line structure. Source itself states the text for any arguments.
- EthereumManifest.SourceLines: the same assumption, for the same reason.
- EthereumManifest.MappingRoundTrip: assumes aliases, signatures and the contract name hold no line break. MappingText itself states the text for any arguments.
- EthereumManifest.MappingTextLayout: the same assumption, because it splits the text into lines.
- EthereumManifest.EntityBlockLines: the same assumption, because it splits the text into lines.
- EthereumManifest.HandlerBlockLines: the same assumption, because it splits the text into lines.
- EthereumManifest.EntitiesMatchHandlers: the same assumption, because it splits the text into lines.
- ScaffoldHelpers.AbiFileNamedInMapping: the same assumption, because it reads the mapping back.
- ScaffoldHelpers.DatasourceRoundTrip: assumes the five arguments hold no line break. In the source, `source` and `mapping` may be multi-line fragments; AddDatasource states the text for those too, but the line layout and the round trip are stated only for single-line arguments.
- ScaffoldHelpers.DatasourceLayout: the same assumption, because it splits the entry into lines.
- ScaffoldHelpers.DatasourceFormsAgree: the same assumption, because it reads the entry text back.
- Unicode: the expression has no `i` or `u` flag, so only ASCII letters and digits match. Lower-casing is modelled for ASCII only, which is all a token can hold.
