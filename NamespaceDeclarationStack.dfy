/** The namespace prefix-mapping stack of the EDI SAX parser. The downstream
    ContentHandler is replaced by a ghost log of the notifications it would
    receive; the schema location resolver that push looks up on the XMLReader
    is passed to each push instead. */
module EdiSaxUtil {
  import opened Wrappers
  import opened Sax
  import opened NamespaceSpec

  class NamespaceDeclarationStack {
    /** One frame per open element, outermost first. */
    var nsStack: seq<Frame>
    /** Every startPrefixMapping and endPrefixMapping call made so far. */
    ghost var events: seq<Event>

    constructor ()
      ensures nsStack == [] && events == []
    {
      nsStack := [];
      events := [];
    }

    /** Closes the innermost element: drops its frame and ends its prefixes in
        reverse order. Popping an empty stack is the caller's error (Java's
        Stack.pop throws). */
    method Pop()
      requires nsStack != []
      modifies this
      ensures nsStack == old(nsStack)[..|old(nsStack)| - 1]
      ensures events == old(events) + EndEvents(old(nsStack)[|old(nsStack)| - 1])
    {
      var pop := nsStack[|nsStack| - 1];
      nsStack := nsStack[..|nsStack| - 1];
      var i := |pop|;
      while i > 0
        invariant 0 <= i <= |pop|
        invariant nsStack == old(nsStack)[..|old(nsStack)| - 1]
        invariant events == old(events) + EndEvents(pop[i..])
      {
        assert pop[i - 1..][1..] == pop[i..];
        events := events + [EndPrefixMapping(pop[i - 1])];
        i := i - 1;
      }
      assert pop[0..] == pop;
    }

    /** Opens an element: records the prefixes its attributes declare plus the
        requested one when no enclosing element declared it, starts them in
        that order, and returns the augmented copy of the attributes. The
        ghost keyOrder is the order in which the map of URIs was visited. */
    method Push(prefix: string, namespace: string, attributes: Option<seq<Attribute>>, resolver: Option<Resolver>)
      returns (attrs: seq<Attribute>, ghost keyOrder: seq<string>)
      modifies this
      ensures nsStack == old(nsStack) + [NewFrame(old(nsStack), prefix, AttributesOrEmpty(attributes))]
      ensures IsKeyOrder(keyOrder, NsToUri(old(nsStack), prefix, namespace, AttributesOrEmpty(attributes)))
      ensures events == old(events) + StartEvents(NewFrame(old(nsStack), prefix, AttributesOrEmpty(attributes)),
                                                  NsToUri(old(nsStack), prefix, namespace, AttributesOrEmpty(attributes)))
      ensures attrs == PushedAttributes(old(nsStack), prefix, namespace, AttributesOrEmpty(attributes), resolver, keyOrder)
    {
      attrs := if attributes.Some? then attributes.value else [];
      ghost var input := AttributesOrEmpty(attributes);
      assert attrs == input;
      ghost var stack := nsStack;
      var namespaces, nsToUri := GatherDeclarations(attrs);
      var declared := PrefixAlreadyDeclared(prefix);
      if !declared {
        attrs := attrs + [Attribute(XmlnsAttributeNsUri, prefix, "xmlns:" + prefix, Cdata, namespace)];
        namespaces := namespaces + [prefix];
        nsToUri := nsToUri[prefix := namespace];
      }
      assert namespaces == NewFrame(stack, prefix, input);
      assert nsToUri == NsToUri(stack, prefix, namespace, input);
      assert attrs == DeclaredAttributes(stack, prefix, namespace, input);
      FrameKeys(stack, prefix, namespace, input);
      nsStack := nsStack + [namespaces];
      StartPrefixMappings(namespaces, nsToUri);
      attrs, keyOrder := GenerateSchemaLocationAttribute(nsToUri, attrs, resolver);
    }

    /** The prefixes the "xmlns:" attributes declare, in attribute order, and
        the URI each maps to (the later attribute wins for a repeated prefix). */
    static method GatherDeclarations(attrs: seq<Attribute>) returns (namespaces: seq<string>, nsToUri: map<string, string>)
      ensures namespaces == DeclaredPrefixes(attrs)
      ensures nsToUri == DeclaredUris(attrs)
    {
      namespaces := [];
      nsToUri := map[];
      var i := 0;
      while i < |attrs|
        invariant 0 <= i <= |attrs|
        invariant namespaces == DeclaredPrefixes(attrs[..i])
        invariant nsToUri == DeclaredUris(attrs[..i])
      {
        assert attrs[..i + 1][..i] == attrs[..i];
        var qname := attrs[i].qName;
        if StartsWith(qname, XmlnsAttribute + ":") {
          namespaces := namespaces + [attrs[i].localName];
          nsToUri := nsToUri[attrs[i].localName := attrs[i].value];
        }
        i := i + 1;
      }
      assert attrs[..i] == attrs;
    }

    /** Starts every prefix of the new frame, in frame order, with its URI. */
    method StartPrefixMappings(namespaces: Frame, nsToUri: map<string, string>)
      requires forall p :: p in namespaces ==> p in nsToUri
      modifies this`events
      ensures events == old(events) + StartEvents(namespaces, nsToUri)
    {
      var j := 0;
      while j < |namespaces|
        invariant 0 <= j <= |namespaces|
        invariant events == old(events) + StartEvents(namespaces[..j], nsToUri)
      {
        assert namespaces[..j + 1][..j] == namespaces[..j];
        var nsPrefix := namespaces[j];
        var uri := nsToUri[nsPrefix];
        events := events + [StartPrefixMapping(nsPrefix, uri)];
        j := j + 1;
      }
      assert namespaces[..j] == namespaces;
    }

    /** Appends xmlns:xsi and, when some URI of the map resolves, an
        xsi:schemaLocation listing "uri location" pairs, visiting the keys in
        an unspecified order (the source iterates a HashMap's key set). */
    method GenerateSchemaLocationAttribute(nsToUri: map<string, string>, attrs: seq<Attribute>, resolver: Option<Resolver>)
      returns (result: seq<Attribute>, ghost keyOrder: seq<string>)
      ensures IsKeyOrder(keyOrder, nsToUri)
      ensures result == attrs + SchemaLocationAttributes(nsToUri, keyOrder, resolver)
    {
      result := attrs;
      if resolver.Some? && |nsToUri| > 0 {
        result := result + [XsiDeclaration];
        var value;
        value, keyOrder := LocationPairs(nsToUri, resolver.value);
        LocationAttributesOf(nsToUri, keyOrder, resolver.value, value);
        if |value| > 0 {
          var location := SchemaLocationAttribute(Trim(value));
          assert result + [location] == attrs + [XsiDeclaration, location];
          result := result + [location];
        }
      } else {
        keyOrder := AnyKeyOrder(nsToUri);
      }
    }

    /** The untrimmed schema location text: "uri location " for every key
        whose URI the resolver knows, keys visited in an unspecified order. */
    static method LocationPairs(nsToUri: map<string, string>, resolve: Resolver)
      returns (value: string, ghost keyOrder: seq<string>)
      ensures IsKeyOrder(keyOrder, nsToUri)
      ensures value == LocationBuffer(nsToUri, keyOrder, resolve)
    {
      value := "";
      keyOrder := [];
      var keys := nsToUri.Keys;
      while keys != {}
        invariant forall i, j :: 0 <= i < j < |keyOrder| ==> keyOrder[i] != keyOrder[j]
        invariant forall k :: k in keyOrder ==> k in nsToUri && k !in keys
        invariant forall k :: k in nsToUri ==> k in keyOrder || k in keys
        invariant keys <= nsToUri.Keys
        invariant value == LocationBuffer(nsToUri, keyOrder, resolve)
        decreases keys
      {
        var nsPrefix :| nsPrefix in keys;
        var uri := nsToUri[nsPrefix];
        var location := resolve(uri);
        ghost var before := value;
        if location.Some? {
          value := value + uri + " ";
          value := value + location.value + " ";
          assert value == before + (uri + " " + location.value + " ");
        }
        ghost var visited := keyOrder;
        keyOrder := keyOrder + [nsPrefix];
        assert keyOrder[..|keyOrder| - 1] == visited;
        assert keyOrder[|keyOrder| - 1] == nsPrefix;
        keys := keys - {nsPrefix};
      }
    }

    /** Whether some frame on the stack, at any depth, holds the prefix. */
    method PrefixAlreadyDeclared(prefix: string) returns (declared: bool)
      ensures declared == Declared(nsStack, prefix)
    {
      var i := 0;
      while i < |nsStack|
        invariant 0 <= i <= |nsStack|
        invariant forall j :: 0 <= j < i ==> prefix !in nsStack[j]
      {
        if prefix in nsStack[i] {
          return true;
        }
        i := i + 1;
      }
      return false;
    }
  }
}
