# Namespace declaration stack of the EDI SAX parser

The EDI SAX parser turns an EDI interchange into a stream of SAX events. As it
opens and closes elements it keeps a stack of namespace scopes,
`NamespaceDeclarationStack`:

- `push(prefix, namespace, attributes)` is called when an element opens. It
  collects the prefixes the element's `xmlns:` attributes declare. It adds an
  `xmlns:<prefix>` declaration unless an enclosing element already declared the
  prefix. It records those prefixes as one frame, sends `startPrefixMapping` for
  each of them, and returns the element's attributes. When the reader has a
  schema location resolver and the element declares at least one prefix, the
  attributes also get `xmlns:xsi` and, when some URI resolves,
  `xsi:schemaLocation`.
- `pop()` is called when the element closes. It drops the frame and sends
  `endPrefixMapping` for its prefixes in reverse order.

The project has six files:

- `Wrappers.dfy`: `Option`.
- `Sax.dfy`: the SAX attribute tuple, the two prefix-mapping notifications, the
  XML constants and Java's `String.trim`.
- `NamespaceSpec.dfy`: what one push or pop computes, written as functions of
  the stack and the arguments, and the lemmas about them.
- `NamespaceDeclarationStack.dfy`: the class itself, with `nsStack` as a field
  of type `seq<seq<string>>`. Each loop of the Java code is a `while` loop
  proved against the functions of `NamespaceSpec`. The content handler becomes
  a ghost log of the notifications it would receive.
- `NamespaceTraces.dfy`: whole sequences of push and pop calls, for the
  properties that relate several calls (balance, matched pairs).
- `Scenarios.dfy`: the unit tests of the class, replayed as client methods
  whose contracts state the values the tests expect.

The Java `HashMap` key order is unspecified. `generateSchemaLocationAttribute`
therefore visits the keys by choosing any remaining key (`:|`). It reports the
order it took as a ghost out-parameter. Every statement about the
`xsi:schemaLocation` value holds for every order that lists each key exactly
once (`IsKeyOrder`).

Source paths in the table are relative to the repository root.

## Model

| member | source | states |
|---|---|---|
| EdiSaxUtil.NamespaceDeclarationStack.constructor | edi/edisax/parser/src/main/java/org/milyn/edisax/util/NamespaceDeclarationStack.java:46-50 | a new stack has no frames and has sent no notification |
| EdiSaxUtil.NamespaceDeclarationStack.Pop | edi/edisax/parser/src/main/java/org/milyn/edisax/util/NamespaceDeclarationStack.java:58-64 | removes exactly the top frame and leaves the frames below unchanged; logs one endPrefixMapping per prefix of that frame, last prefix first; popping an empty stack is excluded (Stack.pop throws) |
| EdiSaxUtil.NamespaceDeclarationStack.Push | edi/edisax/parser/src/main/java/org/milyn/edisax/util/NamespaceDeclarationStack.java:76-112 | adds exactly one frame on top of the unchanged stack: the declared prefixes of the input, then the requested prefix iff no frame holds it; logs one startPrefixMapping per frame entry with its URI from nsToURI; returns the input followed by the added attributes, for the key order the map was visited in |
| EdiSaxUtil.NamespaceDeclarationStack.GatherDeclarations | edi/edisax/parser/src/main/java/org/milyn/edisax/util/NamespaceDeclarationStack.java:87-96 | the loop collects the local names of the "xmlns:" attributes in order and maps each to its value, a later attribute overwriting an earlier one |
| EdiSaxUtil.NamespaceDeclarationStack.StartPrefixMappings | edi/edisax/parser/src/main/java/org/milyn/edisax/util/NamespaceDeclarationStack.java:105-109 | the loop logs startPrefixMapping(p, nsToURI[p]) for every prefix of the frame, in frame order, and changes nothing else |
| EdiSaxUtil.NamespaceDeclarationStack.GenerateSchemaLocationAttribute | edi/edisax/parser/src/main/java/org/milyn/edisax/util/NamespaceDeclarationStack.java:125-156 | appends nothing without a resolver or for an empty map; otherwise appends xmlns:xsi and, when the buffer is non-empty, xsi:schemaLocation with the trimmed buffer; holds for the key order actually visited |
| EdiSaxUtil.NamespaceDeclarationStack.LocationPairs | edi/edisax/parser/src/main/java/org/milyn/edisax/util/NamespaceDeclarationStack.java:141-149 | the keys are visited in some order listing each key exactly once; the buffer is the concatenation of "uri location " over the visited keys whose URI resolves |
| EdiSaxUtil.NamespaceDeclarationStack.PrefixAlreadyDeclared | edi/edisax/parser/src/main/java/org/milyn/edisax/util/NamespaceDeclarationStack.java:165-172 | true exactly when some frame of the stack, at any depth, contains the prefix |
| Sax.Trim | edi/edisax/parser/src/main/java/org/milyn/edisax/util/NamespaceDeclarationStack.java:153 | String.trim: the result is an infix of the input with only characters at or below U+0020 dropped before and after it; it neither starts nor ends with such a character, and it is empty iff every character of the input is one |
| Sax.TrimUnique | edi/edisax/parser/src/main/java/org/milyn/edisax/util/NamespaceDeclarationStack.java:153 | String.trim is characterised: any infix of s that drops only trimmable characters and neither starts nor ends with one is Trim(s) |
| Sax.TrimDropsTrailingSpace | edi/edisax/parser/src/main/java/org/milyn/edisax/util/NamespaceDeclarationStack.java:146-153 | trimming a text that ends in the buffer's trailing separator gives the text back when it has no blank at either end |
| NamespaceSpec.DeclaredUris | edi/edisax/parser/src/main/java/org/milyn/edisax/util/NamespaceDeclarationStack.java:88-96 | the keys of the gathered map are exactly the gathered prefixes |
| NamespaceSpec.DeclaredPrefixesMembership | edi/edisax/parser/src/main/java/org/milyn/edisax/util/NamespaceDeclarationStack.java:88-96 | a prefix is gathered iff some attribute whose qname starts with "xmlns:" has it as local name, with no check against the enclosing frames |
| NamespaceSpec.DeclaredPrefixesAreOrdered | edi/edisax/parser/src/main/java/org/milyn/edisax/util/NamespaceDeclarationStack.java:88-96 | gathering only appends: the prefixes of the first k attributes are a prefix of the prefixes of all of them |
| NamespaceSpec.LastDeclarationWins | edi/edisax/parser/src/main/java/org/milyn/edisax/util/NamespaceDeclarationStack.java:94 | the URI of a prefix declared several times is the value of its last declaration |
| NamespaceSpec.FrameKeys | edi/edisax/parser/src/main/java/org/milyn/edisax/util/NamespaceDeclarationStack.java:88-103 | a prefix is a key of nsToURI iff it is in the new frame, so the map is empty iff the frame is |
| NamespaceSpec.FreshPrefix | edi/edisax/parser/src/main/java/org/milyn/edisax/util/NamespaceDeclarationStack.java:97-103 | a prefix on no frame ends the new frame and maps to the requested namespace, even over an input declaration of the same prefix |
| NamespaceSpec.PushAppendsOnly | edi/edisax/parser/src/main/java/org/milyn/edisax/util/NamespaceDeclarationStack.java:81-86 | the input attributes are a prefix of push's result, unchanged and in order, whatever the resolver and key order |
| NamespaceSpec.ShadowedPush | edi/edisax/parser/src/test/java/org/milyn/edisax/v1_5/namespaces/NamespaceDeclarationStackTest.java:69-81 | for a prefix some frame holds, no declaration is added and the namespace argument plays no part; with no input attributes the frame, the notifications and the result are all empty |
| NamespaceSpec.FreshPush | edi/edisax/parser/src/main/java/org/milyn/edisax/util/NamespaceDeclarationStack.java:97-103 | for a prefix no frame holds, exactly the attribute xmlns:prefix (local name prefix, type CDATA, value namespace) follows the input attributes |
| NamespaceSpec.StartEventAt | edi/edisax/parser/src/main/java/org/milyn/edisax/util/NamespaceDeclarationStack.java:106-109 | the k-th start notification of a push is start(frame[k], nsToURI[frame[k]]), and there is one per frame entry |
| NamespaceSpec.EndEventAt | edi/edisax/parser/src/main/java/org/milyn/edisax/util/NamespaceDeclarationStack.java:59-63 | the k-th end notification of a pop names the k-th prefix from the end of the frame, and there is one per frame entry |
| NamespaceSpec.StartEndSymmetry | edi/edisax/parser/src/test/java/org/milyn/edisax/v1_5/namespaces/NamespaceDeclarationStackTest.java:90 | for one frame, the end notifications name the started prefixes in exactly the reverse order |
| NamespaceSpec.LocationBufferNonEmpty | edi/edisax/parser/src/main/java/org/milyn/edisax/util/NamespaceDeclarationStack.java:141-150 | the buffer is non-empty iff the resolver returns a location for the URI of some visited key |
| NamespaceSpec.NoSchemaLocationWithout | edi/edisax/parser/src/main/java/org/milyn/edisax/util/NamespaceDeclarationStack.java:129-136 | without a resolver, or when the new frame is empty, push adds no xsi attribute |
| NamespaceSpec.SchemaLocationWithResolver | edi/edisax/parser/src/main/java/org/milyn/edisax/util/NamespaceDeclarationStack.java:136-154 | with a resolver and a non-empty map, xmlns:xsi comes first, and xsi:schemaLocation with the trimmed buffer follows iff some URI of the map resolves |
| NamespaceSpec.LocationAttributesOf | edi/edisax/parser/src/main/java/org/milyn/edisax/util/NamespaceDeclarationStack.java:136-155 | with a resolver and a non-empty map, the appended attributes are xmlns:xsi alone for an empty buffer and xmlns:xsi then xsi:schemaLocation otherwise |
| NamespaceSpec.AnyKeyOrder | edi/edisax/parser/src/main/java/org/milyn/edisax/util/NamespaceDeclarationStack.java:142 | every map has an iteration order that lists each key exactly once |
| NamespaceSpec.KeyOrderLength | edi/edisax/parser/src/main/java/org/milyn/edisax/util/NamespaceDeclarationStack.java:142 | any such order is as long as the map |
| NamespaceTraces.RunKeepsBase | edi/edisax/parser/src/main/java/org/milyn/edisax/util/NamespaceDeclarationStack.java:58-112 | a call sequence that never pops more than it pushed succeeds; its stack height changes by pushes minus pops; the frames it started with stay at the bottom and the log only grows |
| NamespaceTraces.BalancedRestoresStack | edi/edisax/parser/src/main/java/org/milyn/edisax/util/NamespaceDeclarationStack.java:58-112 | a balanced push/pop sequence gives the stack back exactly as it was |
| NamespaceTraces.RunFromEmpty | edi/edisax/parser/src/main/java/org/milyn/edisax/util/NamespaceDeclarationStack.java:59 | from an empty stack a call sequence succeeds iff no prefix of it pops more than it pushed |
| NamespaceTraces.RunAppend | edi/edisax/parser/src/main/java/org/milyn/edisax/util/NamespaceDeclarationStack.java:58-112 | running a + b is running a and then b from where a stopped, and fails if a fails |
| NamespaceTraces.DepthAppend | edi/edisax/parser/src/main/java/org/milyn/edisax/util/NamespaceDeclarationStack.java:58-112 | pushes minus pops is additive over concatenation |
| NamespaceTraces.MatchedPair | edi/edisax/parser/src/main/java/org/milyn/edisax/util/NamespaceDeclarationStack.java:58-112 | push, balanced content, pop: the stack is restored and the pop ends exactly the frame the push recorded, after whatever the content logged |
| NamespaceTraces.ShadowedPushIsSilent | edi/edisax/parser/src/test/java/org/milyn/edisax/v1_5/namespaces/NamespaceDeclarationStackTest.java:69-81 | push a, push a, pop, pop from an empty stack logs only start:a:nsa and end:a |
| NamespaceTraces.DoStep | edi/edisax/parser/src/main/java/org/milyn/edisax/util/NamespaceDeclarationStack.java:58-112 | one push or pop on the class changes its stack and log exactly as Step predicts |
| NamespaceTraces.RunOnStack | edi/edisax/parser/src/main/java/org/milyn/edisax/util/NamespaceDeclarationStack.java:58-112 | a call sequence issued on the class, one call at a time, leaves it in the state Run predicts |
| NamespaceTraces.RunBalanced | edi/edisax/parser/src/main/java/org/milyn/edisax/util/NamespaceDeclarationStack.java:58-112 | a balanced call sequence issued on the class gives its stack back unchanged and only appends to its log |
| Scenarios.SimpleMapping | edi/edisax/parser/src/test/java/org/milyn/edisax/v1_5/namespaces/NamespaceDeclarationStackTest.java:58-67 | push a, pop: the result is the single xmlns:a="nsa" and the log is start:a:nsa, end:a |
| Scenarios.SimpleMapping2 | edi/edisax/parser/src/test/java/org/milyn/edisax/v1_5/namespaces/NamespaceDeclarationStackTest.java:69-81 | the inner push of an already declared prefix returns no attribute and the log is start:a:nsa, end:a |
| Scenarios.TwoNamespacesMapping | edi/edisax/parser/src/test/java/org/milyn/edisax/v1_5/namespaces/NamespaceDeclarationStackTest.java:83-93 | nested a and b without a resolver: one declaration each, log start a, start b, end b, end a |
| Scenarios.TwoNamespacesMappingWithResolver | edi/edisax/parser/src/test/java/org/milyn/edisax/v1_5/namespaces/NamespaceDeclarationStackTest.java:95-105 | with the resolver each push also returns xmlns:xsi and xsi:schemaLocation "nsa loc://nsa" (resp. "nsb loc://nsb") |
| Scenarios.NamespacesWithAttributes | edi/edisax/parser/src/test/java/org/milyn/edisax/v1_5/namespaces/NamespaceDeclarationStackTest.java:108-120 | input xmlns:b and xmlns:c then push a: result b, c, a, xsi and the schema location for the visited order; log start b, c, a then end a, c, b (the shadowed inner push of b is silent) |
| Scenarios.NamespacesWithAttributesLocation | edi/edisax/parser/src/test/java/org/milyn/edisax/v1_5/namespaces/NamespaceDeclarationStackTest.java:119 | when the map is visited in the order b, c, a, the schema location is "nsb loc://nsb nsc loc://nsc nsa loc://nsa" |

## Left out

- The content handler and `XMLReader.getContentHandler()`: the notifications
  are appended to a ghost log instead of being delivered.
- `SAXException` thrown by the content handler: it comes from code outside the
  class and has no logic of its own here.
- `xmlReader.getProperty(EDIParser.SCHEMA_LOCATION_RESOLVER)` and the
  `SAXNotRecognizedException` it may throw and push swallows: the resolver the
  property would yield (or none) is an argument of each push. `EDIParser` is
  not part of this model.
- `SAXNotSupportedException` from `getProperty`: push does not catch it
  (lines 126-135), so in Java it escapes push after the frame has been pushed
  and its start notifications sent (lines 104-110). The model has no such
  failure: the resolver argument always gives an answer.
- `SchemaLocationResolver`: an interface with one method. It is modelled as a
  function from a URI to an optional location, with `None` for Java's `null`.
- Java `null` for an attribute's qname, local name or value is not modelled.
  A null qname behaves like one without the `xmlns:` prefix, which is what
  line 90 does.
- The `HashMap` iteration order of `nsToURI.keySet()`: any order that lists
  each key once is allowed. Each statement about the schema location is
  proved for every such order, not for the JDK's actual order.
- `Collections.reverse` of the popped list in place: the list is discarded
  right after, so only the reversed order of the end notifications is
  modelled.
- `AttributesImpl` and its copy constructor: attribute lists are immutable
  sequences, so the copy push makes of its input is implicit.
- The test harness (`MockXMLReader`, `MockContentHandler`, `render`): the
  `Scenarios` methods state the attributes and notifications the tests
  compare, not their rendered text.
