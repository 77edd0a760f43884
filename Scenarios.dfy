/** The unit tests of the namespace stack, replayed against the contracts of
    NamespaceDeclarationStack: each method drives a fresh stack as the test does
    and promises the attributes and notifications the test expects. */
module Scenarios {
  import opened Wrappers
  import opened Sax
  import opened NamespaceSpec
  import opened EdiSaxUtil

  /** The test's resolver: every URI u is found at "loc://" + u. */
  function LocResolver(): Resolver
  {
    (u: string) => Some("loc://" + u)
  }

  /** xmlns:p="uri" as the tests build and expect it. */
  function Xmlns(p: string, uri: string): Attribute
  {
    Attribute(XmlnsAttributeNsUri, p, "xmlns:" + p, Cdata, uri)
  }

  /** The schema location value for a one-prefix frame under LocResolver. */
  lemma SingleLocation(prefix: string, uri: string, order: seq<string>)
    requires uri != [] && !IsTrimmable(uri[0]) && !IsTrimmable(uri[|uri| - 1])
    requires IsKeyOrder(order, map[prefix := uri])
    ensures SchemaLocationAttributes(map[prefix := uri], order, Some(LocResolver()))
              == [XsiDeclaration, SchemaLocationAttribute(uri + " loc://" + uri)]
  {
    SingleBuffer(prefix, uri, order);
    SingleAttributes(uri);
    assert map[prefix := uri].Keys == {prefix};
  }

  /** The attributes a one-prefix text under LocResolver yields. */
  lemma SingleAttributes(uri: string)
    requires uri != [] && !IsTrimmable(uri[0]) && !IsTrimmable(uri[|uri| - 1])
    ensures LocationAttributes(uri + " loc://" + uri + " ") == [XsiDeclaration, SchemaLocationAttribute(uri + " loc://" + uri)]
  {
    SingleTrim(uri);
  }

  /** Trimming the one-prefix text drops only its trailing space. */
  lemma SingleTrim(uri: string)
    requires uri != [] && !IsTrimmable(uri[0]) && !IsTrimmable(uri[|uri| - 1])
    ensures Trim(uri + " loc://" + uri + " ") == uri + " loc://" + uri
  {
    var t := uri + " loc://" + uri;
    assert t[0] == uri[0] && t[|t| - 1] == uri[|uri| - 1];
    TrimDropsTrailingSpace(t);
  }

  /** The untrimmed schema location text for a one-prefix frame. */
  lemma SingleBuffer(prefix: string, uri: string, order: seq<string>)
    requires IsKeyOrder(order, map[prefix := uri])
    ensures LocationBuffer(map[prefix := uri], order, LocResolver()) == uri + " loc://" + uri + " "
  {
    SingleKeyOrder(order, prefix, uri);
    assert order[..0] == [];
  }

  /** A push with no input attributes of a prefix no frame holds. */
  lemma LonePrefix(stack: seq<Frame>, prefix: string, namespace: string, resolver: Option<Resolver>, order: seq<string>)
    requires !Declared(stack, prefix)
    requires IsKeyOrder(order, NsToUri(stack, prefix, namespace, []))
    ensures NewFrame(stack, prefix, []) == [prefix]
    ensures NsToUri(stack, prefix, namespace, []) == map[prefix := namespace]
    ensures PushedAttributes(stack, prefix, namespace, [], resolver, order)
              == [Xmlns(prefix, namespace)] + SchemaLocationAttributes(map[prefix := namespace], order, resolver)
    ensures StartEvents([prefix], map[prefix := namespace]) == [StartPrefixMapping(prefix, namespace)]
    ensures EndEvents([prefix]) == [EndPrefixMapping(prefix)]
  {
    assert [prefix][..0] == [] && [prefix][1..] == [];
  }

  /** A push with no input attributes of a prefix no frame holds, under the
      test's resolver. */
  lemma ResolvedLonePrefix(stack: seq<Frame>, prefix: string, uri: string, order: seq<string>)
    requires !Declared(stack, prefix)
    requires uri != [] && !IsTrimmable(uri[0]) && !IsTrimmable(uri[|uri| - 1])
    requires IsKeyOrder(order, NsToUri(stack, prefix, uri, []))
    ensures PushedAttributes(stack, prefix, uri, [], Some(LocResolver()), order)
              == [Xmlns(prefix, uri), XsiDeclaration, SchemaLocationAttribute(uri + " loc://" + uri)]
  {
    LonePrefix(stack, prefix, uri, Some(LocResolver()), order);
    SingleLocation(prefix, uri, order);
  }

  /** push("a", "nsa"), pop: one declaration, one start and one end. */
  method SimpleMapping() returns (a1: seq<Attribute>, ghost log: seq<Event>)
    ensures a1 == [Xmlns("a", "nsa")]
    ensures log == [StartPrefixMapping("a", "nsa"), EndPrefixMapping("a")]
  {
    var nds := new NamespaceDeclarationStack();
    a1 := PushLone(nds, "a", "nsa");
    PopLone(nds, "a");
    log := nds.events;
  }

  /** push("a", "nsa") twice, then pop twice: the inner push adds nothing and
      notifies nothing. */
  method SimpleMapping2() returns (a1: seq<Attribute>, a2: seq<Attribute>, ghost log: seq<Event>)
    ensures a1 == [Xmlns("a", "nsa")]
    ensures a2 == []
    ensures log == [StartPrefixMapping("a", "nsa"), EndPrefixMapping("a")]
  {
    var nds := new NamespaceDeclarationStack();
    a1 := PushLone(nds, "a", "nsa");
    a2 := PushShadowed(nds, "a", "nsa", None);
    PopEmptyFrame(nds);
    PopLone(nds, "a");
    log := nds.events;
  }

  /** push("a", "nsa"), push("b", "nsb"), pop, pop without a resolver. */
  method TwoNamespacesMapping() returns (a1: seq<Attribute>, a2: seq<Attribute>, ghost log: seq<Event>)
    ensures a1 == [Xmlns("a", "nsa")]
    ensures a2 == [Xmlns("b", "nsb")]
    ensures log == [StartPrefixMapping("a", "nsa"), StartPrefixMapping("b", "nsb"),
                    EndPrefixMapping("b"), EndPrefixMapping("a")]
  {
    var nds := new NamespaceDeclarationStack();
    a1 := PushLone(nds, "a", "nsa");
    assert !Declared([["a"]], "b");
    a2 := PushLone(nds, "b", "nsb");
    PopLone(nds, "b");
    PopLone(nds, "a");
    log := nds.events;
  }

  /** One push without a resolver: a prefix no frame holds, no input
      attributes. */
  method PushLone(nds: NamespaceDeclarationStack, prefix: string, uri: string) returns (attrs: seq<Attribute>)
    requires !Declared(nds.nsStack, prefix)
    modifies nds
    ensures nds.nsStack == old(nds.nsStack) + [[prefix]]
    ensures nds.events == old(nds.events) + [StartPrefixMapping(prefix, uri)]
    ensures attrs == [Xmlns(prefix, uri)]
  {
    ghost var order;
    attrs, order := nds.Push(prefix, uri, None, None);
    LonePrefix(old(nds.nsStack), prefix, uri, None, order);
  }

  /** Closing an element that declared one prefix. */
  method PopLone(nds: NamespaceDeclarationStack, prefix: string)
    requires nds.nsStack != [] && nds.nsStack[|nds.nsStack| - 1] == [prefix]
    modifies nds
    ensures nds.nsStack == old(nds.nsStack)[..|old(nds.nsStack)| - 1]
    ensures nds.events == old(nds.events) + [EndPrefixMapping(prefix)]
  {
    assert [prefix][1..] == [];
    nds.Pop();
  }

  /** The same calls with the resolver: each element also gets xmlns:xsi and
      its own schema location. */
  method TwoNamespacesMappingWithResolver() returns (a1: seq<Attribute>, a2: seq<Attribute>, ghost log: seq<Event>)
    ensures a1 == [Xmlns("a", "nsa"), XsiDeclaration, SchemaLocationAttribute("nsa loc://nsa")]
    ensures a2 == [Xmlns("b", "nsb"), XsiDeclaration, SchemaLocationAttribute("nsb loc://nsb")]
    ensures log == [StartPrefixMapping("a", "nsa"), StartPrefixMapping("b", "nsb"),
                    EndPrefixMapping("b"), EndPrefixMapping("a")]
  {
    var nds := new NamespaceDeclarationStack();
    assert "nsa" + " loc://" + "nsa" == "nsa loc://nsa" && "nsb" + " loc://" + "nsb" == "nsb loc://nsb";
    a1 := PushResolved(nds, "a", "nsa");
    assert !Declared([["a"]], "b");
    a2 := PushResolved(nds, "b", "nsb");
    PopLone(nds, "b");
    PopLone(nds, "a");
    log := nds.events;
  }

  /** One push of the resolver test: a prefix no frame holds, no input
      attributes, the test's resolver. */
  method PushResolved(nds: NamespaceDeclarationStack, prefix: string, uri: string) returns (attrs: seq<Attribute>)
    requires !Declared(nds.nsStack, prefix)
    requires uri != [] && !IsTrimmable(uri[0]) && !IsTrimmable(uri[|uri| - 1])
    modifies nds
    ensures nds.nsStack == old(nds.nsStack) + [[prefix]]
    ensures nds.events == old(nds.events) + [StartPrefixMapping(prefix, uri)]
    ensures attrs == [Xmlns(prefix, uri), XsiDeclaration, SchemaLocationAttribute(uri + " loc://" + uri)]
  {
    ghost var order;
    attrs, order := nds.Push(prefix, uri, None, Some(LocResolver()));
    ResolvedLonePrefix(old(nds.nsStack), prefix, uri, order);
    LonePrefix(old(nds.nsStack), prefix, uri, Some(LocResolver()), order);
  }

  /** The attributes of the last test: xmlns:b="nsb" xmlns:c="nsc". */
  function PreDeclared(): seq<Attribute>
  {
    [Xmlns("b", "nsb"), Xmlns("c", "nsc")]
  }

  /** The URIs of the outer push of the last test. */
  function ThreeUris(): map<string, string>
  {
    map["b" := "nsb", "c" := "nsc", "a" := "nsa"]
  }

  /** The frame and the map of the outer push of the last test. */
  lemma PreDeclaredFrame()
    ensures NewFrame([], "a", PreDeclared()) == ["b", "c", "a"]
    ensures NsToUri([], "a", "nsa", PreDeclared()) == ThreeUris()
  {
    var attrs := PreDeclared();
    assert attrs[..1] == [Xmlns("b", "nsb")] && attrs[..1][..0] == [];
    assert DeclaredPrefixes(attrs) == ["b", "c"];
    assert DeclaredUris(attrs) == map["b" := "nsb", "c" := "nsc"];
    assert !Declared([], "a");
  }

  /** The notifications of the outer element of the last test. */
  lemma PreDeclaredEvents()
    ensures StartEvents(["b", "c", "a"], ThreeUris())
              == [StartPrefixMapping("b", "nsb"), StartPrefixMapping("c", "nsc"), StartPrefixMapping("a", "nsa")]
    ensures EndEvents(["b", "c", "a"]) == [EndPrefixMapping("a"), EndPrefixMapping("c"), EndPrefixMapping("b")]
  {
    var frame := ["b", "c", "a"];
    var m := ThreeUris();
    assert m["b"] == "nsb" && m["c"] == "nsc" && m["a"] == "nsa";
    assert frame[..2] == ["b", "c"] && frame[..2][..1] == ["b"] && frame[..2][..1][..0] == [];
    assert StartEvents(["b"], m) == [StartPrefixMapping("b", "nsb")];
    assert StartEvents(["b", "c"], m) == [StartPrefixMapping("b", "nsb"), StartPrefixMapping("c", "nsc")];
    assert frame[1..] == ["c", "a"] && frame[1..][1..] == ["a"] && frame[1..][1..][1..] == [];
  }

  /** The attributes the outer push of the last test returns. */
  lemma PreDeclaredAttributes(order: seq<string>)
    requires IsKeyOrder(order, ThreeUris())
    ensures PushedAttributes([], "a", "nsa", PreDeclared(), Some(LocResolver()), order)
              == [Xmlns("b", "nsb"), Xmlns("c", "nsc"), Xmlns("a", "nsa"), XsiDeclaration,
                  SchemaLocationAttribute(Trim(LocationBuffer(ThreeUris(), order, LocResolver())))]
  {
    PreDeclaredFrame();
    assert DeclaredAttributes([], "a", "nsa", PreDeclared())
             == [Xmlns("b", "nsb"), Xmlns("c", "nsc"), Xmlns("a", "nsa")];
    ThreeUrisLocation(order);
  }

  /** Every URI of the last test resolves, so its schema location is written. */
  lemma ThreeUrisLocation(order: seq<string>)
    requires IsKeyOrder(order, ThreeUris())
    ensures SchemaLocationAttributes(ThreeUris(), order, Some(LocResolver()))
              == [XsiDeclaration, SchemaLocationAttribute(Trim(LocationBuffer(ThreeUris(), order, LocResolver())))]
  {
    var m := ThreeUris();
    var r := LocResolver();
    assert "a" in m && "a" in order;
    var i :| 0 <= i < |order| && order[i] == "a";
    assert r(m[order[i]]).Some?;
    LocationBufferNonEmpty(m, order, r);
  }

  /** Input attributes declaring b and c, then push("a", "nsa") and an inner
      push("b", "nsb"): the declarations are started in attribute order, the
      requested prefix last; the inner push is shadowed; and the result carries
      the three declarations, xmlns:xsi and a schema location built in the
      order the map of URIs was visited. */
  method NamespacesWithAttributes() returns (res: seq<Attribute>, ghost order: seq<string>, ghost log: seq<Event>)
    ensures IsKeyOrder(order, ThreeUris())
    ensures res == [Xmlns("b", "nsb"), Xmlns("c", "nsc"), Xmlns("a", "nsa"), XsiDeclaration,
                    SchemaLocationAttribute(Trim(LocationBuffer(ThreeUris(), order, LocResolver())))]
    ensures log == [StartPrefixMapping("b", "nsb"), StartPrefixMapping("c", "nsc"), StartPrefixMapping("a", "nsa"),
                    EndPrefixMapping("a"), EndPrefixMapping("c"), EndPrefixMapping("b")]
  {
    var nds := new NamespaceDeclarationStack();
    res, order := PushPreDeclared(nds);
    log := CloseNested(nds);
    NestedLog();
  }

  /** The log of the last test: the three starts, then the three ends. A
      lemma of its own, so that NamespacesWithAttributes need not prove it in
      its larger context. */
  lemma NestedLog()
    ensures [StartPrefixMapping("b", "nsb"), StartPrefixMapping("c", "nsc"), StartPrefixMapping("a", "nsa")]
              + [EndPrefixMapping("a"), EndPrefixMapping("c"), EndPrefixMapping("b")]
            == [StartPrefixMapping("b", "nsb"), StartPrefixMapping("c", "nsc"), StartPrefixMapping("a", "nsa"),
                EndPrefixMapping("a"), EndPrefixMapping("c"), EndPrefixMapping("b")]
  {
  }

  /** The rest of the last test: the shadowed inner push of b and the two
      pops. */
  method CloseNested(nds: NamespaceDeclarationStack) returns (ghost log: seq<Event>)
    requires nds.nsStack == [["b", "c", "a"]]
    modifies nds
    ensures log == old(nds.events) + [EndPrefixMapping("a"), EndPrefixMapping("c"), EndPrefixMapping("b")]
  {
    var inner := PushShadowed(nds, "b", "nsb", Some(LocResolver()));
    PopEmptyFrame(nds);
    PopPreDeclared(nds);
    log := nds.events;
  }

  /** Closing an element whose frame is empty notifies nothing. */
  method PopEmptyFrame(nds: NamespaceDeclarationStack)
    requires nds.nsStack != [] && nds.nsStack[|nds.nsStack| - 1] == []
    modifies nds
    ensures nds.nsStack == old(nds.nsStack)[..|old(nds.nsStack)| - 1]
    ensures nds.events == old(nds.events)
  {
    assert EndEvents([]) == [];
    nds.Pop();
  }

  /** Closing the outer element of the last test. */
  method PopPreDeclared(nds: NamespaceDeclarationStack)
    requires nds.nsStack == [["b", "c", "a"]]
    modifies nds
    ensures nds.nsStack == []
    ensures nds.events == old(nds.events) + [EndPrefixMapping("a"), EndPrefixMapping("c"), EndPrefixMapping("b")]
  {
    PreDeclaredEvents();
    nds.Pop();
  }

  /** The outer push of the last test, on an empty stack. */
  method PushPreDeclared(nds: NamespaceDeclarationStack) returns (res: seq<Attribute>, ghost order: seq<string>)
    requires nds.nsStack == [] && nds.events == []
    modifies nds
    ensures nds.nsStack == [["b", "c", "a"]]
    ensures nds.events == [StartPrefixMapping("b", "nsb"), StartPrefixMapping("c", "nsc"), StartPrefixMapping("a", "nsa")]
    ensures IsKeyOrder(order, ThreeUris())
    ensures res == [Xmlns("b", "nsb"), Xmlns("c", "nsc"), Xmlns("a", "nsa"), XsiDeclaration,
                    SchemaLocationAttribute(Trim(LocationBuffer(ThreeUris(), order, LocResolver())))]
  {
    PreDeclaredFrame();
    res, order := nds.Push("a", "nsa", Some(PreDeclared()), Some(LocResolver()));
    PreDeclaredAttributes(order);
    PreDeclaredEvents();
  }

  /** A push, with no input attributes, of a prefix the top frame holds:
      an empty frame, no notification, nothing returned. */
  method PushShadowed(nds: NamespaceDeclarationStack, prefix: string, uri: string, resolver: Option<Resolver>)
    returns (attrs: seq<Attribute>)
    requires nds.nsStack != [] && prefix in nds.nsStack[|nds.nsStack| - 1]
    modifies nds
    ensures nds.nsStack == old(nds.nsStack) + [[]]
    ensures nds.events == old(nds.events)
    ensures attrs == []
  {
    ghost var order;
    attrs, order := nds.Push(prefix, uri, None, resolver);
    assert Declared(old(nds.nsStack), prefix);
    ShadowedPush(old(nds.nsStack), prefix, uri, [], resolver, order);
    assert attrs == [];
  }

  /** In the key order the test's expected value assumes (b, c, a), the
      schema location is the one the test expects,
      "nsb loc://nsb nsc loc://nsc nsa loc://nsa". */
  lemma NamespacesWithAttributesLocation()
    ensures Trim(LocationBuffer(map["b" := "nsb", "c" := "nsc", "a" := "nsa"], ["b", "c", "a"], LocResolver()))
              == "nsb loc://nsb " + "nsc loc://nsc " + "nsa loc://nsa"
  {
    ExpectedOrderBuffer();
    TrimDropsTrailingSpace("nsb loc://nsb " + "nsc loc://nsc " + "nsa loc://nsa");
  }

  /** The untrimmed text for the order b, c, a: one "uri loc://uri " piece per
      key, in that order. */
  lemma ExpectedOrderBuffer()
    ensures LocationBuffer(map["b" := "nsb", "c" := "nsc", "a" := "nsa"], ["b", "c", "a"], LocResolver())
              == "nsb loc://nsb " + "nsc loc://nsc " + ("nsa loc://nsa" + " ")
  {
    var m := map["b" := "nsb", "c" := "nsc", "a" := "nsa"];
    var order := ["b", "c", "a"];
    assert order[..2] == ["b", "c"];
    ExpectedOrderBufferPrefix();
    assert "nsa" + " " + ("loc://" + "nsa") + " " == "nsa loc://nsa" + " ";
  }

  /** The text after visiting b and c. */
  lemma ExpectedOrderBufferPrefix()
    ensures LocationBuffer(map["b" := "nsb", "c" := "nsc", "a" := "nsa"], ["b", "c"], LocResolver())
              == "nsb loc://nsb " + "nsc loc://nsc "
  {
    var m := map["b" := "nsb", "c" := "nsc", "a" := "nsa"];
    var order := ["b", "c"];
    assert order[..1] == ["b"] && order[..1][..0] == [];
    assert "" + ("nsb" + " " + ("loc://" + "nsb") + " ") == "nsb loc://nsb ";
    assert "nsc" + " " + ("loc://" + "nsc") + " " == "nsc loc://nsc ";
  }
}
