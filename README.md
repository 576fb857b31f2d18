# Versioner: image-reference rewriting, modelled in Dafny

The Versioner is a kustomize transformer plugin. It is given a versions
table for one environment, which maps a container name to an override
(`name`, `tag`, `digest`). It walks every resource of the build and looks
for `containers` and `initContainers` lists. In each entry whose `name` has
an override, it rewrites the `image` reference.

The model has five modules:

- `ImageRef` (`image_ref.dfy`) models the `Image` and `Versions` types and
  the pure string logic:
  - `split` cuts a reference such as `host:5000/app:1.0` into a name and a
    suffix. The suffix keeps its `:` or `@`. A registry-port colon before
    the first `/` never counts.
  - `mutateImage` merges an override into a reference. A non-empty name
    replaces the name, a tag sets `:tag`, and a digest sets `@digest` and
    wins over the tag.
  - `split` is also described independently by a cut point (`CutPoint`), and
    the lemmas tie the function to that description.
- `Tree` (`tree.dfy`) models a decoded document: mappings, lists, strings
  and other scalars.
- `Rewriter` (`rewriter.dfy`) models `updateContainers`,
  `findAndReplaceImage` and `findContainers`. Each has two forms:
  - a function on values that states what a successful search produces;
  - a method that follows the Go loop and is proved against that function.
- `RewriterProps` (`rewriter_props.dfy`) holds the properties of the rewrite.
  It shows which entries change and how, and where the search stops
  descending. It shows that a successful rewrite changes nothing but strings
  under `image` keys, and that an empty table changes nothing.
- `Transform` (`transform.dfy`) models the plugin's `Transform` loop over
  the resources, including the rule for `CustomResourceDefinition`.

Go visits map keys in no fixed order. When several parts of a mapping are
malformed, any one of their failures may be reported. So the functions fail
with the set of failures that some visiting order can report. Each method
returns one failure and promises that it is in that set.

The Go code panics on its unchecked type assertions: a container entry that
is not a mapping, or an `image` or `name` that is not a string. These are
their own `Failure` constructors (`IsPanic`), kept apart from the one error
the code returns, a `containers` value that is not a list (`NotAList`).

Three behaviours of the code are easy to misread, and the model keeps
them as written:

- `split("repo@sha256:abc")` cuts at the colon and gives
  `("repo@sha256", ":abc")`, not `("repo", "@sha256:abc")`, because a
  qualifying colon always wins over `@`.
- Resources of kind `CustomResourceDefinition` are searched and may be
  rewritten, like any other resource. Only an error from them is ignored. A
  panic inside one still stops the build.
- A container entry that is not a mapping panics. It is not returned as an
  ordinary error.

## Model

| member | source | states |
|---|---|---|
| ImageRef.IndexOf | plugin/yanana.tokyo/v1/versioner/Versioner.go:180 | `strings.Index` for one character: -1 exactly when the character is absent, otherwise the position of its first occurrence |
| ImageRef.LastIndexOf | plugin/yanana.tokyo/v1/versioner/Versioner.go:181-189 | `strings.LastIndex` for one character: -1 exactly when the character is absent, otherwise the position of its last occurrence |
| ImageRef.Split | plugin/yanana.tokyo/v1/versioner/Versioner.go:176-202 | name + suffix is the input, and the suffix is empty or starts with `:` or `@` |
| ImageRef.TagColonIndex | plugin/yanana.tokyo/v1/versioner/Versioner.go:179-188 | `ic` is -1 or a position in the string; when it is a position, it holds the last colon of the string, and it lies after the first `/` when there is one; without a `/`, -1 means there is no colon at all |
| ImageRef.TagColonIndexIsLastTagColon | plugin/yanana.tokyo/v1/versioner/Versioner.go:179-188 | `ic` is -1 exactly when there is no tag colon, otherwise it is the last colon, counting only colons after the first `/` when there is one |
| ImageRef.SplitAtCutPoint | plugin/yanana.tokyo/v1/versioner/Versioner.go:189-201 | the name ends at the last tag colon, else at the last `@`, else at the end of the string |
| ImageRef.CutPointUnique | plugin/yanana.tokyo/v1/versioner/Versioner.go:194-197 | that description of the cut point picks exactly one position |
| ImageRef.SplitIsCutAt | plugin/yanana.tokyo/v1/versioner/Versioner.go:199-201 | at the cut point, the name is the text before it and the suffix the text from it on |
| ImageRef.SplitWhole | plugin/yanana.tokyo/v1/versioner/Versioner.go:179-192 | the suffix is empty if and only if there is no tag colon and no `@` |
| ImageRef.PortColonNeverCut | plugin/yanana.tokyo/v1/versioner/Versioner.go:180-188 | a colon before the first `/` is never the cut |
| ImageRef.ColonBeatsAt | plugin/yanana.tokyo/v1/versioner/Versioner.go:189-197 | when a tag colon exists, the suffix starts with `:` and the cut is at or after that colon, whatever `@`s there are |
| ImageRef.SplitAtLastColon | plugin/yanana.tokyo/v1/versioner/Versioner.go:180-181 | without a `/`, the cut is at the last colon |
| ImageRef.SplitAfterSlash | plugin/yanana.tokyo/v1/versioner/Versioner.go:182-187 | with a first `/`, the cut is at the last colon after it |
| ImageRef.SplitPlain | plugin/yanana.tokyo/v1/versioner/Versioner.go:190-192 | a reference without `/`, `:` and `@` is returned whole with an empty suffix |
| ImageRef.SplitNoTagAfterSlash | plugin/yanana.tokyo/v1/versioner/Versioner.go:180-192 | with no colon after the first `/` and no `@`, the reference is returned whole with an empty suffix |
| ImageRef.SplitPortOnlyExample | plugin/yanana.tokyo/v1/versioner/Versioner.go:180-188 | `host:5000/app` is not split |
| ImageRef.SplitPortAndTagExample | plugin/yanana.tokyo/v1/versioner/Versioner.go:180-188 | `host:5000/app:1.0` splits into `host:5000/app` and `:1.0` |
| ImageRef.SplitDigestExample | plugin/yanana.tokyo/v1/versioner/Versioner.go:189-197 | `repo@sha256:abc` splits into `repo@sha256` and `:abc`, because the colon wins |
| ImageRef.MutateImage | plugin/yanana.tokyo/v1/versioner/Versioner.go:79-91 | with a digest, the result is the chosen name (the override's name if set, else the name `split` gives) followed by `@digest`; with a tag and no digest, the chosen name followed by `:tag`; so with a name set, the original does not matter |
| ImageRef.EmptyOverrideIsIdentity | plugin/yanana.tokyo/v1/versioner/Versioner.go:79-91 | an override with every field empty returns the original reference |
| ImageRef.MutateImageKeeps | plugin/yanana.tokyo/v1/versioner/Versioner.go:80-86 | without a name override, the original name is a prefix of the result; without a tag or digest, the original suffix is kept after the chosen name |
| ImageRef.IndexOfAt | plugin/yanana.tokyo/v1/versioner/Versioner.go:180 | the first `/` is found where it is when none comes before it |
| ImageRef.SlashesOnlyInName | plugin/yanana.tokyo/v1/versioner/Versioner.go:180-188 | appending a delimiter other than `/` and a word without `/` adds no `/` to a name |
| ImageRef.SplitAtAppendedColon | plugin/yanana.tokyo/v1/versioner/Versioner.go:180-197 | a name followed by `:` and a word without `:` or `/` is cut right before that `:`, whatever the name holds |
| ImageRef.SplitAtAppendedAt | plugin/yanana.tokyo/v1/versioner/Versioner.go:189-197 | a name without a tag colon, followed by `@` and a word without delimiters, is cut right before that `@` |
| ImageRef.MutateImageIdempotent | plugin/yanana.tokyo/v1/versioner/Versioner.go:79-91 | an override that sets a name and a tag or digest gives the same result when applied a second time |
| ImageRef.TagOverrideIdempotent | plugin/yanana.tokyo/v1/versioner/Versioner.go:79-91 | a tag override without a name or digest, whose tag holds no `:` or `/`, gives the same result when applied a second time |
| ImageRef.DigestOverrideIdempotent | plugin/yanana.tokyo/v1/versioner/Versioner.go:79-91 | a digest override without a name, whose digest holds no delimiter, gives the same result when applied a second time if and only if the original name has no tag colon |
| ImageRef.DigestAfterTagColonExample | plugin/yanana.tokyo/v1/versioner/Versioner.go:79-91 | the digest `d` applied to `a:b:c` gives `a:b@d`, and applied again gives `a@d`: without a name, the colon left in the name becomes the cut |
| ImageRef.DigestAfterTagColonFirst | plugin/yanana.tokyo/v1/versioner/Versioner.go:79-91 | the digest `d` applied to `a:b:c` gives `a:b@d` |
| ImageRef.DigestAfterTagColonSecond | plugin/yanana.tokyo/v1/versioner/Versioner.go:79-91 | the digest `d` applied to `a:b@d` gives `a@d` |
| ImageRef.ColonDigestNeverStable | plugin/yanana.tokyo/v1/versioner/Versioner.go:79-91 | without a name, a digest holding a colon and no `/` (as `algorithm:hex` digests do) never gives the same result when applied a second time: the digest's own last colon becomes the cut |
| ImageRef.DigestWithAlgorithmNotIdempotent | plugin/yanana.tokyo/v1/versioner/Versioner.go:87-89 | an instance of that: `sha256:ab` applied to `foo` gives `foo@sha256:ab`, and applied again gives `foo@sha256@sha256:ab` |
| ImageRef.DigestOnPlainName | plugin/yanana.tokyo/v1/versioner/Versioner.go:87-90 | the digest `sha256:ab` applied to `foo` gives `foo@sha256:ab` |
| ImageRef.DigestOnDigestReference | plugin/yanana.tokyo/v1/versioner/Versioner.go:87-90 | the same digest applied to `foo@sha256:ab` gives `foo@sha256@sha256:ab` |
| ImageRef.SplitDigestReference | plugin/yanana.tokyo/v1/versioner/Versioner.go:189-197 | `foo@sha256:ab` splits into `foo@sha256` and `:ab` |
| ImageRef.MutateDigestExample | plugin/yanana.tokyo/v1/versioner/Versioner_test.go:95-111 | `foo:bar` with a digest override and nothing else becomes `foo@` followed by the digest, for any non-empty digest (the test's 64-digit one included); the old tag is dropped |
| ImageRef.MutateNameAndTagExample | plugin/yanana.tokyo/v1/versioner/Versioner_test.go:93-109 | `elasticsearch` with `{magna/carta, 2}` becomes `magna/carta:2` |
| Rewriter.EntryRewrite | plugin/yanana.tokyo/v1/versioner/Versioner.go:125-144 | a failure is a panic; a rewritten entry is a mapping with the same keys, every field but `image` is kept, and it differs from the input only when its `name` is a string with an override |
| Rewriter.EntriesRewrite | plugin/yanana.tokyo/v1/versioner/Versioner.go:124-145 | a rewritten list of entries has the input's length; a failure is a panic |
| Rewriter.ContainersRewrite | plugin/yanana.tokyo/v1/versioner/Versioner.go:118-147 | a failure is the error (not a panic) exactly when the value is not a list; a rewritten value is a list of the same length |
| Rewriter.FieldsRewrite | plugin/yanana.tokyo/v1/versioner/Versioner.go:100-111 | a successful rewrite of the container fields keeps every key, and every field not among them is unchanged |
| Rewriter.ObjectRewrite | plugin/yanana.tokyo/v1/versioner/Versioner.go:99-116 | a rewritten mapping keeps its keys; a failure reports at least one possible failure |
| Rewriter.SearchRewrite | plugin/yanana.tokyo/v1/versioner/Versioner.go:149-171 | a searched mapping keeps its keys; a failure reports at least one possible failure |
| Rewriter.ChildRewrite | plugin/yanana.tokyo/v1/versioner/Versioner.go:151-168 | a searched mapping stays a mapping with the same keys, a searched list stays a list of the same length, and any other value is kept; a failure reports at least one possible failure |
| Rewriter.ItemsRewrite | plugin/yanana.tokyo/v1/versioner/Versioner.go:157-167 | the searched items from position `i` on number as many as the input has from `i` on; a failure reports at least one possible failure |
| Rewriter.EntriesRewriteNext | plugin/yanana.tokyo/v1/versioner/Versioner.go:125-145 | when an entry is accepted, the loop's prefix grows by its rewrite and the rest of the list is still to come |
| Rewriter.EntriesRewriteStop | plugin/yanana.tokyo/v1/versioner/Versioner.go:125-135 | when an entry panics, the whole list fails with that panic |
| Rewriter.SearchReports | plugin/yanana.tokyo/v1/versioner/Versioner.go:151-168 | the failure of any value of a searched mapping is one the search may report |
| Rewriter.SearchCollects | plugin/yanana.tokyo/v1/versioner/Versioner.go:150-170 | when every value has been searched successfully, the collected values are the search's result |
| Rewriter.UpdateContainers | plugin/yanana.tokyo/v1/versioner/Versioner.go:118-147 | the loop returns the list rewritten entry by entry, or the first failure, exactly as `ContainersRewrite` says |
| Rewriter.FindAndReplaceImage | plugin/yanana.tokyo/v1/versioner/Versioner.go:99-116 | the loop over `containers`, `initContainers` with its `updated` flag gives the tree `ObjectRewrite` gives, or one of its possible failures |
| Rewriter.FindContainers | plugin/yanana.tokyo/v1/versioner/Versioner.go:149-171 | visiting the keys in any order gives the tree `SearchRewrite` gives, or one of its possible failures |
| Rewriter.FindInList | plugin/yanana.tokyo/v1/versioner/Versioner.go:157-167 | the loop over a nested list gives the items `ItemsRewrite` gives, or the failure of the first mapping item that fails |
| RewriterProps.EntriesRewriteSpec | plugin/yanana.tokyo/v1/versioner/Versioner.go:124-145 | the entries are rewritten if and only if every entry is well formed; then length and order are kept, matched entries get the merged image and all others are unchanged |
| RewriterProps.EntriesRewriteFailure | plugin/yanana.tokyo/v1/versioner/Versioner.go:125-135 | a failure is the panic of the first malformed entry, and every entry before it is well formed |
| RewriterProps.ContainersRewriteSpec | plugin/yanana.tokyo/v1/versioner/Versioner.go:118-147 | the error (not a panic) happens if and only if the value is not a list; success happens if and only if it is a list of well-formed entries, and then only matched entries change |
| RewriterProps.IrrelevantTable | plugin/yanana.tokyo/v1/versioner/Versioner.go:136-139 | a table that names none of the listed containers leaves a well-formed list unchanged |
| RewriterProps.RetagEntry | plugin/yanana.tokyo/v1/versioner/Versioner.go:126-144 | an entry with a string image and name gets the merged image when its name has an override, and is kept otherwise |
| RewriterProps.StagingListExample | plugin/yanana.tokyo/v1/versioner/Versioner_test.go:57-116 | for any non-empty digest in the staging table, the staging list becomes `magna/carta:2`, `foo@` and the digest, `baz`: the third entry, not in the table, is unchanged |
| RewriterProps.StagingMagnaCarta | plugin/yanana.tokyo/v1/versioner/Versioner_test.go:93-109 | the staging test's first entry becomes `magna/carta:2` |
| RewriterProps.StagingTheContainer | plugin/yanana.tokyo/v1/versioner/Versioner_test.go:95-111 | the staging test's second entry takes the digest in place of its tag |
| RewriterProps.StagingUnlisted | plugin/yanana.tokyo/v1/versioner/Versioner_test.go:97-113 | the staging test's third entry, not in the table, is unchanged |
| RewriterProps.StagingDeploymentExample | plugin/yanana.tokyo/v1/versioner/Versioner_test.go:85-115 | `findAndReplaceImage` on the staging test's whole Deployment gives the expected Deployment: only the container list under `spec.template.spec` changes |
| RewriterProps.DeploymentRewrite | plugin/yanana.tokyo/v1/versioner/Versioner.go:99-171 | the Deployment's `apiVersion`, `kind` and `metadata` are searched and kept, and its `spec` is searched down to the container list, which is rewritten |
| RewriterProps.DeploymentSpecRewrite | plugin/yanana.tokyo/v1/versioner/Versioner.go:99-171 | the Deployment's `spec` is searched through `template` and `spec` to the container list, which is rewritten |
| RewriterProps.DeploymentKeys | plugin/yanana.tokyo/v1/versioner/Versioner.go:112-114 | the Deployment has no container field at its top, and the rewrite keeps its keys |
| RewriterProps.SearchedTo | plugin/yanana.tokyo/v1/versioner/Versioner.go:149-171 | a mapping without container fields whose every value searches to the matching value of `out` is rewritten to `out` |
| RewriterProps.NestedOnce | plugin/yanana.tokyo/v1/versioner/Versioner.go:149-171 | a mapping holding only a non-container field with a mapping inside is rewritten through that inner mapping |
| RewriterProps.ContainersOnly | plugin/yanana.tokyo/v1/versioner/Versioner.go:99-116 | a mapping holding only `containers` is rewritten to that list's rewrite |
| RewriterProps.IrrelevantListExample | plugin/yanana.tokyo/v1/versioner/Versioner_test.go:10-55 | with a table naming other containers, the `elasticsearch` list is unchanged |
| RewriterProps.ContainerFieldsOnly | plugin/yanana.tokyo/v1/versioner/Versioner.go:99-116 | a mapping with a container field succeeds if and only if each present container field does; only those fields change, and nothing below the mapping is searched; the failure is that of `containers` first, else `initContainers` |
| RewriterProps.SearchEveryValue | plugin/yanana.tokyo/v1/versioner/Versioner.go:149-171 | a mapping without container fields is searched value by value; it succeeds if and only if every value does; the keys stay; any value's failure may be the one reported, and every reported failure is the failure of some value |
| RewriterProps.ItemsRewriteStep | plugin/yanana.tokyo/v1/versioner/Versioner.go:157-167 | one step of a list search: it succeeds if and only if the first item (when a mapping) and the rest do, and then the result is the first item's rewrite followed by the rest's |
| RewriterProps.ItemsRewriteSpec | plugin/yanana.tokyo/v1/versioner/Versioner.go:157-167 | a nested list search succeeds if and only if every mapping item's search does |
| RewriterProps.ItemsRewriteValues | plugin/yanana.tokyo/v1/versioner/Versioner.go:157-167 | in a successful list search, mapping items are replaced by their searched mappings and every other item is kept, in order |
| RewriterProps.ItemsRewriteFailure | plugin/yanana.tokyo/v1/versioner/Versioner.go:161-164 | a failed list search reports the failures of the first mapping item that fails, and every mapping item before it succeeds |
| RewriterProps.ContainersSameButImages | plugin/yanana.tokyo/v1/versioner/Versioner.go:118-147 | a successful `updateContainers` changes only strings under `image` keys |
| RewriterProps.ObjectSameButImages | plugin/yanana.tokyo/v1/versioner/Versioner.go:99-116 | a successful `findAndReplaceImage` keeps every key, list length and scalar, and changes only strings under `image` keys |
| RewriterProps.ChildSameButImages | plugin/yanana.tokyo/v1/versioner/Versioner.go:150-168 | the same for one searched value |
| RewriterProps.ItemsSameButImages | plugin/yanana.tokyo/v1/versioner/Versioner.go:157-167 | the same for the items of a searched list |
| RewriterProps.SameButImagesRefl | plugin/yanana.tokyo/v1/versioner/Versioner.go:150-168 | values the search passes over are trivially "the same but images" |
| RewriterProps.EmptyTableObject | plugin/yanana.tokyo/v1/versioner/Versioner.go:99-116 | with an empty versions table, a successful `findAndReplaceImage` returns the mapping unchanged |
| RewriterProps.EmptyTableChild | plugin/yanana.tokyo/v1/versioner/Versioner.go:150-168 | the same for one searched value |
| RewriterProps.EmptyTableItems | plugin/yanana.tokyo/v1/versioner/Versioner.go:157-167 | the same for the items of a searched list |
| Transform.Transform | plugin/yanana.tokyo/v1/versioner/Versioner.go:69-77 | on success every resource is rewritten, except that a custom resource definition whose rewrite returned an error is kept; a failure is a possible panic of some resource, or a possible error of a resource of another kind, and every earlier resource could be passed; the build succeeds when every rewrite succeeds, and fails when a resource of another kind cannot be rewritten |

## Left out

- Loading the versions table (`readVersionsFile`, `unmarshal`, `Config`, Versioner.go:32-67): file access, path joining and YAML decoding. The table of the chosen environment is a parameter.
- The kustomize plumbing (`ResMap`, `Resources()`, `Map()`, `OrgId()`): a resource is a kind and a decoded tree.
- In-place update: the Go code writes into the decoded maps and lists, and aliasing between them is not modelled. Every step returns the rewritten value instead.
- The state after a failure: Go leaves whatever it had already rewritten. The model reports only the failure.
- Transform.Transform: for a custom resource definition whose error is ignored, the model keeps the document as it was. Go keeps the partial rewrite made before the error.
- Error and panic messages: a failure carries the offending value, not the formatted text or the `%T` type name.
- The `mutateImage` error result: it is always nil, so `MutateImage` returns just the string.
- Numbers are unbounded integers and strings are sequences of characters, not UTF-8 bytes. Positions differ from Go's byte positions once a multi-byte character comes first, but the delimiters `/`, `:` and `@` are single ASCII bytes, so both find the same delimiter occurrence and `split` returns the same two strings.
- Rewriter.FindContainers: the map iteration order is a nondeterministic choice. Which failure is reported is stated as membership in the set of possible failures, not as a particular order.
