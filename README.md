# serde_yml error locations and path truncation, modelled in Dafny

This project models two pieces of the serde_yml crate.

1. `Path`, the backward-linked chain that a YAML deserializer builds as it descends into
   sequences, mappings and aliases. Rendering it with `Display` gives the location printed
   in front of an error message, for example `\[1\].first.\[2\].second..?`.
2. `truncate` from the directory utilities. It is meant to shorten a displayed filesystem path.

Files:

- `rust_types.dfy` (module `RustTypes`): `usize` as a 64-bit unsigned subset type, and `Option`.
- `decimal.dfy` (module `Decimal`): the decimal text Rust writes for a `usize`, and its reading back.
- `path.dfy` (module `PathChain`): the `Path` datatype, its rendering, and the lemmas about it.
- `directory.dfy` (module `Directory`): `truncate` as written, and a corrected version.

The `Path` enum's own source file is not part of this model. Its behaviour is taken from the
assertions in `tests/modules/test_path.rs`, and one rule fits every one of them:
- a parent contributes nothing if it is `Root`, and otherwise its own rendering followed by `.`;
- after that contribution, `Seq` adds `\[index\]`, `Map` adds its key, `Alias` adds nothing and
  `Unknown` adds `?`;
- `Root` on its own renders as `.`.

The backslashes are literal characters. The separator is supplied by the parent whatever the
child is, so a dot stands even before a sequence bracket, as the tests at test_path.rs:190 and
:207 show (`\[1\].key.\[99\]`, `\[1\].\[42\]`).
`ChildRendering` states the separator rule. `RenderJoinsTokens` gives an independent reference
definition: the tokens of the steps from the root outward, joined by dots.

`truncate` is modelled as the code runs it, not as its doc comment describes it. Each loop pass
calls `path.components().next_back()` on a new iterator, so every pass pushes the path's last
component again. The loop stops when `count == length`. A path is modelled as its sequence of
normal components, and its text as those components pushed onto an empty `PathBuf`, that is,
joined by `/`.

## Model

| member | source | states |
|---|---|---|
| PathChain.Render | tests/modules/test_path.rs:9-303 | `Display for Path`; it has no contract of its own: `ChildRendering` and `RenderJoinsTokens` state its properties, and the example lemmas below check it against every test |
| PathChain.Ancestor | tests/modules/test_path.rs:197-303 | a parent's contribution is empty exactly when the parent is `Root`, and otherwise ends with the separator `.` |
| PathChain.Child | tests/modules/test_path.rs:147-165 | building a node over a parent gives a non-root chain whose parent is that parent and whose steps are the parent's steps plus the new one |
| PathChain.StepsOfExtend | tests/modules/test_path.rs:147-165 | extending a chain by successive constructions appends exactly those steps behind the existing ones |
| PathChain.ChainFromRoot | tests/modules/test_path.rs:147-165 | every chain is `Root` extended by its own steps, so `Root` is the one innermost ancestor and a chain is determined by its steps |
| PathChain.StructuralEquality | tests/modules/test_path.rs:93-121 | two chains are equal if and only if they have the same variants with the same payloads at every depth, so independently built equal chains and a copy compare equal |
| PathChain.ChildRendering | tests/modules/test_path.rs:197-303 | a child's rendering is its parent's contribution (empty for `Root`, else the parent's rendering plus `.`) followed by the step's own text, the same for every kind of child |
| PathChain.RenderJoinsTokens | tests/modules/test_path.rs:127-191 | `Root` renders as `.`; any other chain renders as the texts of its steps from the root outward, joined by single dots |
| PathChain.RenderExtendsAncestor | tests/modules/test_path.rs:146-170 | the rendering of any descendant starts with the rendering of a non-root ancestor followed by `.` |
| PathChain.UnderRoot | tests/modules/test_path.rs:9-87 | under `Root`: `Root` gives `.`, `Seq` gives `\[` + decimal index + `\]`, `Map` gives its key verbatim, `Alias` gives the empty string, `Unknown` gives `?`, for every index and key |
| PathChain.SeqIndexExamples | tests/modules/test_path.rs:214-228 | indices 0, 42 and 100 under `Root` render as `\[0\]`, `\[42\]`, `\[100\]` |
| PathChain.SeqLargeIndexExample | tests/modules/test_path.rs:30-41 | index `usize::MAX` under `Root` renders as `\[18446744073709551615\]` |
| PathChain.MapKeyExamples | tests/modules/test_path.rs:251-271 | keys `key`, ``, `special_key`, `123` under `Root` render verbatim |
| PathChain.ParentExamples | tests/modules/test_path.rs:197-303 | one non-root parent: `\[1\].\[42\]`, `\[1\].key`, `parent_key.`, `parent_key.?` |
| PathChain.NestedExample | tests/modules/test_path.rs:127-140 | Seq 0, Map `key`, Alias, Unknown renders as `\[0\].key..?` |
| PathChain.DeeplyNestedExample | tests/modules/test_path.rs:146-170 | Seq 1, Map `first`, Seq 2, Map `second`, Alias, Unknown renders as `\[1\].first.\[2\].second..?` |
| PathChain.ComplexNestedExample | tests/modules/test_path.rs:176-191 | Seq 1, Map `key`, Seq 99 renders as `\[1\].key.\[99\]` |
| Decimal.NatToDecimal | tests/modules/test_path.rs:37-40 | the decimal text of an index is non-empty, all digits, and has no leading zero unless it is `0` |
| Decimal.DecimalRoundTrip | tests/modules/test_path.rs:37-40 | reading the decimal text of `n` back gives `n` |
| Decimal.CanonicalIsRendering | tests/modules/test_path.rs:37-40 | every canonical numeral is the decimal text of the number it denotes, so the rendering is a bijection onto canonical numerals |
| Decimal.UsizeMaxDecimal | tests/modules/test_path.rs:35-40 | `usize::MAX` is written as `18446744073709551615` |
| Directory.Push | src/utilities/directory.rs:244 | `PathBuf::push` of a normal component lengthens the buffer by the component, plus one separator unless the buffer was empty |
| Directory.PushAppends | src/utilities/directory.rs:244 | pushing onto an empty buffer gives the component alone; onto a non-empty one it keeps the buffer, adds `/`, and ends with the component |
| Directory.Join | src/utilities/directory.rs:238-244 | the text of the pushed components is empty exactly when nothing was pushed |
| Directory.SplitJoin | src/utilities/directory.rs:244-255 | splitting the text of a non-empty component list at `/` gives back exactly that list |
| Directory.Truncated | src/utilities/directory.rs:231-260 | what `truncate` returns as written: `Some` exactly when `length > 0` and the path has a component |
| Directory.Truncate | src/utilities/directory.rs:231-260 | `None` when `length` is 0; `None` when the path has no components; otherwise `Some` holding the last component pushed `length` times; `Some` exactly when `length > 0` and the path has a component |
| Directory.TruncatedRepeatsLast | src/utilities/directory.rs:242-255 | whenever `truncate` returns a path, reading it back gives the input's last component `length` times and nothing else |
| Directory.LastComponents | src/utilities/directory.rs:202-206 | the documented result: `Some` exactly when 0 < `length` <= the number of components |
| Directory.TruncateLastComponents | src/utilities/directory.rs:231-260 | the loop with two corrections, one iterator held across passes and the order restored: `None` when `length` is 0 or exceeds the number of components, otherwise the last `length` components in order |
| Directory.LastComponentsSplit | src/utilities/directory.rs:202-206 | whenever the corrected version returns a path, reading it back gives exactly the last `length` components |
| Directory.TruncateMissesEarlierComponents | src/utilities/directory.rs:202-245 | whenever the last two components differ and 2 <= `length` <= the number of components, the code's result differs from the documented one |
| Directory.DocumentationExampleAsWritten | src/utilities/directory.rs:223-245 | the documented example path with length 3 yields `file.txt/file.txt/file.txt` |
| Directory.DocumentationExampleIntended | src/utilities/directory.rs:219-230 | the documented example path with length 3 is meant to yield `05/27/file.txt` |

Inside `Truncate`, the loop invariant `count < length` holds at every test of the loop condition.
So `count` never exceeds `length`, the `break` is the only way the loop stops with
`count == length`, and the result is `Some` exactly when it did stop that way.

## Left out

- The source of `serde_yml::modules::path` is not part of this model. The rendering is fixed by
  the one rule that every assertion in `tests/modules/test_path.rs` fits.
- No test fixes how a non-root parent with an empty rendering is shown, such as `Map{Root, ""}`
  or `Alias{Root}` used as a parent. The model applies the same rule to it, and that case makes
  no claim about the crate beyond that rule.
- `fmt::Formatter` and the `Display` machinery are left out. Rendering is string concatenation
  plus a decimal helper.
- Borrowed `&Path` parents, lifetimes, and `Copy`/`Clone` are left out. A chain is a Dafny value,
  so a copy is the value itself. Rendering is a function, so it is pure and repeatable by
  construction.
- Only `truncate` is modelled from `src/utilities/directory.rs`. `directory`,
  `move_output_directory`, `cleanup_directory` and `create_directory` only wrap filesystem calls
  and print output.
- `std::path` internals are left out: prefix, root, `.` and `..` components, `PathBuf::push`
  replacing the buffer on an absolute component, and the UTF-8 handling of `to_string_lossy`.
  A path is its list of normal components: non-empty, free of `/`, and neither `.` nor `..`.
  The separator is the Unix one, `/`; the Windows separator is not modelled.
- `truncate` only reads its input path. In the model the input is a value, so no mutation of it
  can be expressed. The loop's only state is the locals `truncated` and `count`.

## Findings

The corrected `truncate` makes two changes. It holds one iterator across passes. It also puts
each component taken from the back in front of those already kept, because pushing it as the
code does would reverse them: a held iterator alone would give `file.txt/27/05`. It keeps the
code's `count == length` test, so a path with exactly `length` components is returned whole,
although the comment at lines 206 and 215 says a value comes back only when the path was
truncated.

| source | as written | input that shows it | evidently intended | confidence | as-written member | corrected member |
|---|---|---|---|---|---|---|
| src/utilities/directory.rs:242 | each pass calls `next_back()` on a new `path.components()` iterator, so the last component is pushed `length` times | `home/user/documents/report/2023/05/27/file.txt` with length 3 gives `file.txt/file.txt/file.txt` | the last `length` components, `05/27/file.txt`, as the comment at lines 202-206 says | high; not executed | Directory.DocumentationExampleAsWritten | Directory.TruncateLastComponents |
