/** The pieces of SAX, javax.xml and java.lang.String that the namespace stack
    relies on: attribute tuples, prefix-mapping notifications, the XML constants
    and String.trim. */
module Sax {
  import opened Wrappers

  /** XMLConstants.XMLNS_ATTRIBUTE */
  const XmlnsAttribute: string := "xmlns"
  /** XMLConstants.XMLNS_ATTRIBUTE_NS_URI */
  const XmlnsAttributeNsUri: string := "http://www.w3.org/2000/xmlns/"
  /** XMLConstants.W3C_XML_SCHEMA_INSTANCE_NS_URI */
  const W3cXmlSchemaInstanceNsUri: string := "http://www.w3.org/2001/XMLSchema-instance"
  /** The attribute type every attribute added by the stack carries. */
  const Cdata: string := "CDATA"

  /** One entry of an AttributesImpl: (namespace URI, local name, qualified
      name, type, value). */
  datatype Attribute = Attribute(uri: string, localName: string, qName: string, attrType: string, value: string)

  /** One call on the downstream ContentHandler. */
  datatype Event =
    | StartPrefixMapping(prefix: string, uri: string)
    | EndPrefixMapping(prefix: string)

  /** SchemaLocationResolver.getSchemaLocation: a namespace URI to a schema
      location, or None for Java's null. */
  type Resolver = string -> Option<string>

  predicate StartsWith(s: string, p: string)
  {
    |p| <= |s| && s[..|p|] == p
  }

  /** String.trim removes every character whose code is at most U+0020. */
  predicate IsTrimmable(c: char)
  {
    c <= ' '
  }

  function TrimLeading(s: string): (r: string)
    ensures |r| <= |s| && r == s[|s| - |r|..]
    ensures r == [] || !IsTrimmable(r[0])
    ensures forall i :: 0 <= i < |s| - |r| ==> IsTrimmable(s[i])
  {
    if |s| > 0 && IsTrimmable(s[0]) then TrimLeading(s[1..]) else s
  }

  function TrimTrailing(s: string): (r: string)
    ensures |r| <= |s| && r == s[..|r|]
    ensures r == [] || !IsTrimmable(r[|r| - 1])
    ensures forall i :: |r| <= i < |s| ==> IsTrimmable(s[i])
  {
    if |s| > 0 && IsTrimmable(s[|s| - 1]) then TrimTrailing(s[..|s| - 1]) else s
  }

  /** r is s[a..a + |r|], and every character of s outside that infix is
      trimmable. */
  predicate TrimmedAt(s: string, r: string, a: int)
  {
    && 0 <= a && a + |r| <= |s| && r == s[a..a + |r|]
    && (forall i :: 0 <= i < a ==> IsTrimmable(s[i]))
    && (forall i :: a + |r| <= i < |s| ==> IsTrimmable(s[i]))
  }

  /** String.trim: the longest infix of s that neither starts nor ends with a
      trimmable character; only trimmable characters are dropped. */
  function Trim(s: string): (r: string)
    ensures r == [] || (!IsTrimmable(r[0]) && !IsTrimmable(r[|r| - 1]))
    ensures (forall i :: 0 <= i < |s| ==> IsTrimmable(s[i])) <==> r == []
    ensures exists a :: TrimmedAt(s, r, a)
  {
    var left := TrimLeading(s);
    var r := TrimTrailing(left);
    // An empty result means the trailing pass dropped all of left, which then
    // cannot start with a kept character: so left itself is empty.
    assert r == [] ==> left == [];
    TrimmedInfix(s, left, r);
    r
  }

  /** Dropping trimmable characters from the front of s and then from the
      back of what is left keeps the infix of s that starts where the front
      ones end. */
  lemma TrimmedInfix(s: string, left: string, r: string)
    requires |left| <= |s| && left == s[|s| - |left|..]
    requires forall i :: 0 <= i < |s| - |left| ==> IsTrimmable(s[i])
    requires |r| <= |left| && r == left[..|r|]
    requires forall i :: |r| <= i < |left| ==> IsTrimmable(left[i])
    ensures TrimmedAt(s, r, |s| - |left|)
  {
    var a := |s| - |left|;
    forall i | 0 <= i < |r| ensures r[i] == s[a + i] {
      assert r[i] == left[i];
    }
    assert r == s[a..a + |r|];
    forall i | a + |r| <= i < |s| ensures IsTrimmable(s[i]) {
      assert s[i] == left[i - a];
    }
  }

  /** Trim is the only infix of s that drops nothing but trimmable characters
      and neither starts nor ends with one. */
  lemma TrimUnique(s: string, r: string, a: int)
    requires TrimmedAt(s, r, a)
    requires r == [] || (!IsTrimmable(r[0]) && !IsTrimmable(r[|r| - 1]))
    ensures r == Trim(s)
  {
    var t := Trim(s);
    var b :| TrimmedAt(s, t, b);
    if r != [] {
      // s[a] is kept, so s is not all blank and t is not empty.
      assert t != [] by {
        assert s[a] == r[0];
      }
      TrimSameInfix(s, r, a, t, b);
    }
  }

  /** Two non-empty trimmed infixes without blanks at their ends coincide. */
  lemma TrimSameInfix(s: string, r: string, a: int, t: string, b: int)
    requires TrimmedAt(s, r, a) && TrimmedAt(s, t, b)
    requires r != [] && !IsTrimmable(r[0]) && !IsTrimmable(r[|r| - 1])
    requires t != [] && !IsTrimmable(t[0]) && !IsTrimmable(t[|t| - 1])
    ensures r == t
  {
    // Both infixes start at the first non-trimmable character of s ...
    assert s[a] == r[0] && s[b] == t[0];
    assert a == b;
    // ... and end at the last one.
    assert s[a + |r| - 1] == r[|r| - 1] && s[b + |t| - 1] == t[|t| - 1];
    assert |r| == |t|;
  }

  /** Trimming a string that is one trailing space away from being already
      trimmed gives that string back. */
  lemma TrimDropsTrailingSpace(t: string)
    requires t != [] && !IsTrimmable(t[0]) && !IsTrimmable(t[|t| - 1])
    ensures Trim(t + " ") == t
  {
    var s := t + " ";
    assert TrimLeading(s) == s;
    assert s[..|s| - 1] == t;
    assert TrimTrailing(s) == TrimTrailing(t);
  }
}
