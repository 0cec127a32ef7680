/** Composite keys `collection\0key` of the entries table. */
module Codec {
  import opened Lex
  import opened Json

  predicate ValidCollection(c: Text) { c != [] && NulFree(c) }

  /** The composite key, defined where the codec accepts the collection name. */
  function CompositeKey(c: Text, u: Text): Text { c + [0] + u }

  function Lower(c: Text): Text { CompositeKey(c, []) }

  function Upper(c: Text): Text { c + [1] }

  function StripPrefix(k: Text, c: Text): Option<Text> {
    if |k| < |c| + 1 || k[..|c|] != c || k[|c|] != 0 then None else Some(k[|c| + 1..])
  }

  method EncodeKey(c: Text, u: Text) returns (r: Result<Text>)
    ensures ValidCollection(c) ==> r == Ok(CompositeKey(c, u))
    ensures !ValidCollection(c) ==> r == Err(InvalidArg)
  {
    if c == [] || 0 in c { return Err(InvalidArg); }
    var out := c;
    out := out + [0];
    out := out + u;
    return Ok(out);
  }

  method CollectionPrefixUpper(c: Text) returns (r: Result<Text>)
    ensures ValidCollection(c) ==> r == Ok(Upper(c))
    ensures !ValidCollection(c) ==> r == Err(InvalidArg)
  {
    if c == [] || 0 in c { return Err(InvalidArg); }
    var out := c;
    out := out + [1];
    return Ok(out);
  }

  /** Stripping inverts encoding, and succeeds on nothing else. */
  lemma StripInverts(k: Text, c: Text, u: Text)
    ensures StripPrefix(k, c) == Some(u) <==> k == CompositeKey(c, u)
  {
    if k == CompositeKey(c, u) {
      assert k[..|c|] == c && k[|c| + 1..] == u;
    }
    if StripPrefix(k, c) == Some(u) {
      assert k == k[..|c|] + [k[|c|]] + k[|c| + 1..];
    }
  }

  /** The scan range of a collection holds exactly its own keys, each of which strips. */
  lemma ScanIsExact(c: Text, k: Text)
    ensures InRange(Lower(c), k, Upper(c)) <==> StripPrefix(k, c).Some?
    ensures InRange(Lower(c), k, Upper(c)) <==> exists u :: k == CompositeKey(c, u)
  {
    assert Lower(c) == c + [0];
    RangeIsPrefix(c, k);
    if c + [0] <= k {
      assert k == CompositeKey(c, k[|c| + 1..]);
      StripInverts(k, c, k[|c| + 1..]);
    }
    if StripPrefix(k, c).Some? { StripInverts(k, c, StripPrefix(k, c).value); }
    forall u | k == CompositeKey(c, u) ensures c + [0] <= k { }
  }

  /** No key belongs to two collections, nor to one collection in two ways. */
  lemma CompositeKeyInjective(c: Text, u: Text, c': Text, u': Text)
    requires NulFree(c) && NulFree(c')
    requires CompositeKey(c, u) == CompositeKey(c', u')
    ensures c == c' && u == u'
  {
    SplitFirst(c, u, c', u');
  }

  /** Within a collection the table order is the order of the user keys. */
  lemma CompositeKeyOrder(c: Text, u: Text, u': Text)
    ensures Less(CompositeKey(c, u), CompositeKey(c, u')) <==> Less(u, u')
  {
    PrefixLess(c + [0], u, u');
  }
}
