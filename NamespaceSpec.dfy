/** What one push or pop of the namespace declaration stack computes, stated as
    functions of the stack before the call and of the call's arguments, with
    the properties the stack promises proved about them. */
module NamespaceSpec {
  import opened Wrappers
  import opened Sax

  /** The prefixes declared at one element, in the order they were found. */
  type Frame = seq<string>

  /** "xmlns:" */
  const XmlnsColon: string := XmlnsAttribute + ":"

  /** An attribute whose qualified name starts with "xmlns:" declares the
      prefix in its local name. */
  predicate IsNamespaceDeclaration(a: Attribute)
  {
    StartsWith(a.qName, XmlnsColon)
  }

  /** The prefix occurs in some frame on the stack, whichever its depth. */
  predicate Declared(stack: seq<Frame>, prefix: string)
  {
    exists i :: 0 <= i < |stack| && prefix in stack[i]
  }

  /** An absent attribute list is read as an empty one. */
  function AttributesOrEmpty(attributes: Option<seq<Attribute>>): seq<Attribute>
  {
    match attributes
    case None => []
    case Some(attrs) => attrs
  }

  /** The local names of the "xmlns:" attributes, in attribute order. */
  function DeclaredPrefixes(attrs: seq<Attribute>): seq<string>
  {
    if attrs == [] then []
    else
      var last := attrs[|attrs| - 1];
      DeclaredPrefixes(attrs[..|attrs| - 1]) + (if IsNamespaceDeclaration(last) then [last.localName] else [])
  }

  /** The prefix-to-URI map that putting every "xmlns:" attribute in attribute
      order builds: a prefix declared twice keeps its later value. */
  function DeclaredUris(attrs: seq<Attribute>): (m: map<string, string>)
    ensures forall p :: p in m <==> p in DeclaredPrefixes(attrs)
  {
    if attrs == [] then map[]
    else
      var last := attrs[|attrs| - 1];
      var m := DeclaredUris(attrs[..|attrs| - 1]);
      if IsNamespaceDeclaration(last) then m[last.localName := last.value] else m
  }

  /** The frame push records. */
  function NewFrame(stack: seq<Frame>, prefix: string, input: seq<Attribute>): Frame
  {
    DeclaredPrefixes(input) + (if Declared(stack, prefix) then [] else [prefix])
  }

  /** The nsToURI map push builds. */
  function NsToUri(stack: seq<Frame>, prefix: string, namespace: string, input: seq<Attribute>): map<string, string>
  {
    if Declared(stack, prefix) then DeclaredUris(input) else DeclaredUris(input)[prefix := namespace]
  }

  /** xmlns:prefix="namespace" */
  function DeclarationAttribute(prefix: string, namespace: string): Attribute
  {
    Attribute(XmlnsAttributeNsUri, prefix, "xmlns:" + prefix, Cdata, namespace)
  }

  /** xmlns:xsi="http://www.w3.org/2001/XMLSchema-instance" */
  const XsiDeclaration: Attribute :=
    Attribute(XmlnsAttributeNsUri, "xsi", "xmlns:xsi", Cdata, W3cXmlSchemaInstanceNsUri)

  function SchemaLocationAttribute(value: string): Attribute
  {
    Attribute(W3cXmlSchemaInstanceNsUri, "schemaLocation", "xsi:schemaLocation", Cdata, value)
  }

  /** The input attributes, followed by the declaration of the requested prefix
      when no frame on the stack holds it yet. */
  function DeclaredAttributes(stack: seq<Frame>, prefix: string, namespace: string, input: seq<Attribute>): seq<Attribute>
  {
    input + (if Declared(stack, prefix) then [] else [DeclarationAttribute(prefix, namespace)])
  }

  /** order lists every key of m exactly once: one iteration order of a
      HashMap's key set. */
  predicate IsKeyOrder(order: seq<string>, m: map<string, string>)
  {
    && (forall i, j :: 0 <= i < j < |order| ==> order[i] != order[j])
    && (forall k :: k in order ==> k in m)
    && (forall k :: k in m ==> k in order)
  }

  /** Some iteration order of the keys of m. */
  ghost function AnyKeyOrder(m: map<string, string>): (order: seq<string>)
    ensures IsKeyOrder(order, m)
    decreases |m|
  {
    if |m| == 0 then []
    else
      var k :| k in m;
      var rest := m - {k};
      assert rest.Keys == m.Keys - {k};
      AnyKeyOrder(rest) + [k]
  }

  /** The text buffer that visiting the keys in the given order fills: "uri
      location " for every URI the resolver knows a location for. */
  function LocationBuffer(m: map<string, string>, order: seq<string>, resolve: Resolver): string
    requires forall k :: k in order ==> k in m
  {
    if order == [] then ""
    else
      var uri := m[order[|order| - 1]];
      LocationBuffer(m, order[..|order| - 1], resolve)
        + (match resolve(uri)
           case Some(location) => uri + " " + location + " "
           case None => "")
  }

  /** The attributes the schema-location step appends. */
  function SchemaLocationAttributes(m: map<string, string>, order: seq<string>, resolver: Option<Resolver>): seq<Attribute>
    requires IsKeyOrder(order, m)
  {
    if resolver.None? || |m| == 0 then [] else LocationAttributes(LocationBuffer(m, order, resolver.value))
  }

  /** xmlns:xsi, then xsi:schemaLocation with the trimmed buffer unless the
      buffer is empty. */
  function LocationAttributes(buffer: string): seq<Attribute>
  {
    [XsiDeclaration] + (if |buffer| > 0 then [SchemaLocationAttribute(Trim(buffer))] else [])
  }

  /** With a resolver and a nonempty map, the schema-location step appends
      xmlns:xsi and then the trimmed buffer unless it is empty. */
  lemma LocationAttributesOf(m: map<string, string>, order: seq<string>, resolve: Resolver, buffer: string)
    requires IsKeyOrder(order, m) && |m| > 0
    requires buffer == LocationBuffer(m, order, resolve)
    ensures |buffer| > 0 ==>
              SchemaLocationAttributes(m, order, Some(resolve)) == [XsiDeclaration, SchemaLocationAttribute(Trim(buffer))]
    ensures |buffer| == 0 ==> SchemaLocationAttributes(m, order, Some(resolve)) == [XsiDeclaration]
  {
  }

  /** The attribute list push returns, for one iteration order of nsToURI. */
  function PushedAttributes(stack: seq<Frame>, prefix: string, namespace: string, input: seq<Attribute>,
                            resolver: Option<Resolver>, order: seq<string>): seq<Attribute>
    requires IsKeyOrder(order, NsToUri(stack, prefix, namespace, input))
  {
    DeclaredAttributes(stack, prefix, namespace, input)
      + SchemaLocationAttributes(NsToUri(stack, prefix, namespace, input), order, resolver)
  }

  /** The startPrefixMapping calls for a frame, in frame order. */
  function StartEvents(frame: Frame, m: map<string, string>): seq<Event>
    requires forall p :: p in frame ==> p in m
  {
    if frame == [] then []
    else
      var p := frame[|frame| - 1];
      StartEvents(frame[..|frame| - 1], m) + [StartPrefixMapping(p, m[p])]
  }

  /** The endPrefixMapping calls for a frame, in reverse frame order. */
  function EndEvents(frame: Frame): seq<Event>
  {
    if frame == [] then [] else EndEvents(frame[1..]) + [EndPrefixMapping(frame[0])]
  }

  // ---------------------------------------------------------------------------
  // The frame and the prefix-to-URI map

  /** A prefix is in the gathered list exactly when some "xmlns:" attribute
      has it as local name. */
  lemma {:induction false} DeclaredPrefixesMembership(attrs: seq<Attribute>, p: string)
    ensures p in DeclaredPrefixes(attrs) <==>
              exists i :: 0 <= i < |attrs| && IsNamespaceDeclaration(attrs[i]) && attrs[i].localName == p
  {
    if attrs != [] {
      var init := attrs[..|attrs| - 1];
      DeclaredPrefixesMembership(init, p);
      if p in DeclaredPrefixes(init) {
        var i :| 0 <= i < |init| && IsNamespaceDeclaration(init[i]) && init[i].localName == p;
        assert attrs[i] == init[i];
      }
      if exists i :: 0 <= i < |attrs| && IsNamespaceDeclaration(attrs[i]) && attrs[i].localName == p {
        var i :| 0 <= i < |attrs| && IsNamespaceDeclaration(attrs[i]) && attrs[i].localName == p;
        if i < |init| {
          assert init[i] == attrs[i];
        }
      }
    }
  }

  /** Gathering only appends: the prefixes declared by the first k attributes
      are a prefix of those declared by all of them, so attribute order is
      kept. */
  lemma {:induction false} DeclaredPrefixesAreOrdered(attrs: seq<Attribute>, k: nat)
    requires k <= |attrs|
    ensures DeclaredPrefixes(attrs[..k]) <= DeclaredPrefixes(attrs)
    decreases |attrs| - k
  {
    if k < |attrs| {
      DeclaredPrefixesAreOrdered(attrs, k + 1);
      assert attrs[..k + 1][..k] == attrs[..k];
    } else {
      assert attrs[..k] == attrs;
    }
  }

  /** Later "xmlns:p" attributes overwrite earlier ones: the URI of p is the
      value of the last attribute that declares p. */
  lemma {:induction false} LastDeclarationWins(attrs: seq<Attribute>, i: nat)
    requires i < |attrs| && IsNamespaceDeclaration(attrs[i])
    requires forall j :: i < j < |attrs| ==>
               !(IsNamespaceDeclaration(attrs[j]) && attrs[j].localName == attrs[i].localName)
    ensures attrs[i].localName in DeclaredUris(attrs)
    ensures DeclaredUris(attrs)[attrs[i].localName] == attrs[i].value
  {
    var init := attrs[..|attrs| - 1];
    if i < |init| {
      forall j | i < j < |init|
        ensures !(IsNamespaceDeclaration(init[j]) && init[j].localName == init[i].localName)
      {
        assert init[j] == attrs[j];
      }
      LastDeclarationWins(init, i);
    }
  }

  /** Every prefix of the new frame has a URI in nsToURI and nsToURI has no
      other key; so the map is empty exactly when the frame is. */
  lemma FrameKeys(stack: seq<Frame>, prefix: string, namespace: string, input: seq<Attribute>)
    ensures forall p :: p in NsToUri(stack, prefix, namespace, input) <==> p in NewFrame(stack, prefix, input)
    ensures |NsToUri(stack, prefix, namespace, input)| == 0 <==> NewFrame(stack, prefix, input) == []
  {
    var m := NsToUri(stack, prefix, namespace, input);
    var f := NewFrame(stack, prefix, input);
    if f != [] {
      assert f[0] in m;
    }
  }

  /** A prefix not yet on the stack is declared last in its frame and mapped to
      the requested namespace, even when an "xmlns:" attribute of the input
      declared it too. */
  lemma FreshPrefix(stack: seq<Frame>, prefix: string, namespace: string, input: seq<Attribute>)
    requires !Declared(stack, prefix)
    ensures NewFrame(stack, prefix, input) == DeclaredPrefixes(input) + [prefix]
    ensures NsToUri(stack, prefix, namespace, input)[prefix] == namespace
  {
  }

  // ---------------------------------------------------------------------------
  // The returned attribute list

  /** push only appends: the input attributes are a prefix of the result. */
  lemma PushAppendsOnly(stack: seq<Frame>, prefix: string, namespace: string, input: seq<Attribute>,
                        resolver: Option<Resolver>, order: seq<string>)
    requires IsKeyOrder(order, NsToUri(stack, prefix, namespace, input))
    ensures |input| <= |PushedAttributes(stack, prefix, namespace, input, resolver, order)|
    ensures PushedAttributes(stack, prefix, namespace, input, resolver, order)[..|input|] == input
  {
  }

  /** A prefix visible from an ancestor is not declared again: no attribute
      for it is added, the requested namespace plays no part, and without input
      attributes the frame, the notifications and the result are all empty. */
  lemma ShadowedPush(stack: seq<Frame>, prefix: string, namespace: string, input: seq<Attribute>,
                     resolver: Option<Resolver>, order: seq<string>)
    requires Declared(stack, prefix)
    requires IsKeyOrder(order, NsToUri(stack, prefix, namespace, input))
    ensures NewFrame(stack, prefix, input) == DeclaredPrefixes(input)
    ensures forall other: string :: NsToUri(stack, prefix, namespace, input) == NsToUri(stack, prefix, other, input)
    ensures PushedAttributes(stack, prefix, namespace, input, resolver, order)
              == input + SchemaLocationAttributes(DeclaredUris(input), order, resolver)
    ensures input == [] ==>
              && NewFrame(stack, prefix, input) == []
              && StartEvents(NewFrame(stack, prefix, input), NsToUri(stack, prefix, namespace, input)) == []
              && PushedAttributes(stack, prefix, namespace, input, resolver, order) == []
  {
    assert NsToUri(stack, prefix, namespace, input) == DeclaredUris(input);
    assert DeclaredAttributes(stack, prefix, namespace, input) == input;
    if input == [] {
      assert |DeclaredUris(input)| == 0;
    }
  }

  /** A prefix on no frame gets exactly one declaration attribute, right after
      the input ones. */
  lemma FreshPush(stack: seq<Frame>, prefix: string, namespace: string, input: seq<Attribute>,
                  resolver: Option<Resolver>, order: seq<string>)
    requires !Declared(stack, prefix)
    requires IsKeyOrder(order, NsToUri(stack, prefix, namespace, input))
    ensures var r := PushedAttributes(stack, prefix, namespace, input, resolver, order);
            |input| < |r| && r[..|input| + 1] == input + [DeclarationAttribute(prefix, namespace)]
  {
    var r := PushedAttributes(stack, prefix, namespace, input, resolver, order);
    assert r[..|input| + 1] == DeclaredAttributes(stack, prefix, namespace, input);
  }

  // ---------------------------------------------------------------------------
  // Notifications

  lemma {:induction false} StartEventAt(frame: Frame, m: map<string, string>, k: nat)
    requires forall p :: p in frame ==> p in m
    requires k < |frame|
    ensures |StartEvents(frame, m)| == |frame|
    ensures StartEvents(frame, m)[k] == StartPrefixMapping(frame[k], m[frame[k]])
  {
    var init := frame[..|frame| - 1];
    StartEventsLength(init, m);
    if k < |init| {
      StartEventAt(init, m, k);
    }
  }

  lemma {:induction false} StartEventsLength(frame: Frame, m: map<string, string>)
    requires forall p :: p in frame ==> p in m
    ensures |StartEvents(frame, m)| == |frame|
  {
    if frame != [] {
      StartEventsLength(frame[..|frame| - 1], m);
    }
  }

  lemma {:induction false} EndEventAt(frame: Frame, k: nat)
    requires k < |frame|
    ensures |EndEvents(frame)| == |frame|
    ensures EndEvents(frame)[k] == EndPrefixMapping(frame[|frame| - 1 - k])
  {
    EndEventsLength(frame[1..]);
    if k < |frame| - 1 {
      EndEventAt(frame[1..], k);
    }
  }

  lemma {:induction false} EndEventsLength(frame: Frame)
    ensures |EndEvents(frame)| == |frame|
  {
    if frame != [] {
      EndEventsLength(frame[1..]);
    }
  }

  /** For one frame, the end notifications name the prefixes of the start
      notifications in exactly the reverse order. */
  lemma StartEndSymmetry(frame: Frame, m: map<string, string>)
    requires forall p :: p in frame ==> p in m
    ensures |EndEvents(frame)| == |StartEvents(frame, m)| == |frame|
    ensures forall k :: 0 <= k < |frame| ==>
              EndEvents(frame)[k].prefix == StartEvents(frame, m)[|frame| - 1 - k].prefix
  {
    StartEventsLength(frame, m);
    EndEventsLength(frame);
    forall k | 0 <= k < |frame|
      ensures EndEvents(frame)[k].prefix == StartEvents(frame, m)[|frame| - 1 - k].prefix
    {
      EndEventAt(frame, k);
      StartEventAt(frame, m, |frame| - 1 - k);
    }
  }

  // ---------------------------------------------------------------------------
  // The schema location

  /** The buffer is non-empty exactly when the resolver knows a location for
      the URI of some visited key. */
  lemma {:induction false} LocationBufferNonEmpty(m: map<string, string>, order: seq<string>, resolve: Resolver)
    requires forall k :: k in order ==> k in m
    ensures |LocationBuffer(m, order, resolve)| > 0 <==>
              exists i :: 0 <= i < |order| && resolve(m[order[i]]).Some?
  {
    if order != [] {
      var init := order[..|order| - 1];
      LocationBufferNonEmpty(m, init, resolve);
      if exists i :: 0 <= i < |init| && resolve(m[init[i]]).Some? {
        var i :| 0 <= i < |init| && resolve(m[init[i]]).Some?;
        assert order[i] == init[i];
      }
      if exists i :: 0 <= i < |order| && resolve(m[order[i]]).Some? {
        var i :| 0 <= i < |order| && resolve(m[order[i]]).Some?;
        if i < |init| {
          assert init[i] == order[i];
        }
      }
    }
  }

  /** Without a resolver, or with nothing declared at this element, no xsi
      attribute is appended. */
  lemma NoSchemaLocationWithout(stack: seq<Frame>, prefix: string, namespace: string, input: seq<Attribute>,
                                resolver: Option<Resolver>, order: seq<string>)
    requires IsKeyOrder(order, NsToUri(stack, prefix, namespace, input))
    requires resolver.None? || NewFrame(stack, prefix, input) == []
    ensures PushedAttributes(stack, prefix, namespace, input, resolver, order)
              == DeclaredAttributes(stack, prefix, namespace, input)
  {
    FrameKeys(stack, prefix, namespace, input);
  }

  /** With a resolver and a non-empty map, xmlns:xsi is appended, and then
      xsi:schemaLocation exactly when some URI of the map resolves; its value
      is the trimmed buffer. */
  lemma SchemaLocationWithResolver(m: map<string, string>, order: seq<string>, resolve: Resolver)
    requires IsKeyOrder(order, m) && |m| > 0
    ensures var r := SchemaLocationAttributes(m, order, Some(resolve));
            && r[0] == XsiDeclaration
            && (|r| == 2 <==> exists k :: k in m && resolve(m[k]).Some?)
            && (|r| == 1 || r == [XsiDeclaration, SchemaLocationAttribute(Trim(LocationBuffer(m, order, resolve)))])
  {
    LocationBufferNonEmpty(m, order, resolve);
    if exists k :: k in m && resolve(m[k]).Some? {
      var k :| k in m && resolve(m[k]).Some?;
      var i :| 0 <= i < |order| && order[i] == k;
    }
  }

  /** A key order visits every key exactly once, so it is as long as the map. */
  lemma {:induction false} KeyOrderLength(order: seq<string>, m: map<string, string>)
    requires IsKeyOrder(order, m)
    ensures |order| == |m|
  {
    if order == [] {
      assert forall k :: k !in m;
      assert m == map[];
    } else {
      var last := order[|order| - 1];
      KeyOrderDropLast(order, m);
      KeyOrderLength(order[..|order| - 1], m - {last});
      assert (m - {last}).Keys == m.Keys - {last};
    }
  }

  lemma KeyOrderDropLast(order: seq<string>, m: map<string, string>)
    requires IsKeyOrder(order, m) && order != []
    ensures order[|order| - 1] in m
    ensures IsKeyOrder(order[..|order| - 1], m - {order[|order| - 1]})
  {
    var last := order[|order| - 1];
    var init := order[..|order| - 1];
    var rest := m - {last};
    forall i, j | 0 <= i < j < |init| ensures init[i] != init[j] {
      assert init[i] == order[i] && init[j] == order[j];
    }
    forall k | k in init ensures k in rest {
      var i :| 0 <= i < |init| && init[i] == k;
      assert order[i] == k && order[i] != order[|order| - 1];
    }
    forall k | k in rest ensures k in init {
      assert k in order && k != last;
      var i :| 0 <= i < |order| && order[i] == k;
      assert init[i] == k;
    }
  }

  /** A single key order of a one-entry map. */
  lemma SingleKeyOrder(order: seq<string>, k: string, v: string)
    requires IsKeyOrder(order, map[k := v])
    ensures order == [k]
  {
    KeyOrderLength(order, map[k := v]);
    assert order[0] in order;
  }
}
