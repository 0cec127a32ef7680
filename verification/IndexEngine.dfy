/** Keys `collection\0field\0value\0id` of the secondary-index table. */
module IndexEngine {
  import opened Lex
  import opened Json
  import opened Schema

  function EncodeIndexValue(v: Value): Text {
    match v
    case Str(s) => s
    case Bool(b) => [if b then 1 else 0]
    case Num(n) => Decimal(n)
    case Null => [0] + T("null")
    case _ => ToText(v)
  }

  function GroupPrefix(c: Text, field: Text, enc: Text): Text { c + [0] + field + [0] + enc }

  function IndexKey(c: Text, field: Text, enc: Text, id: Text): Text {
    GroupPrefix(c, field, enc) + [0] + id
  }

  function GroupLower(c: Text, field: Text, enc: Text): Text { GroupPrefix(c, field, enc) + [0] }

  function GroupUpper(c: Text, field: Text, enc: Text): Text { GroupPrefix(c, field, enc) + [1] }

  method BuildKey(c: Text, field: Text, enc: Text, id: Text) returns (k: Text)
    ensures k == IndexKey(c, field, enc, id)
  {
    k := c;
    k := k + [0];
    k := k + field;
    k := k + [0];
    k := k + enc;
    k := k + [0];
    k := k + id;
  }

  /** The bounds of one index group; the upper one is the lower one with its last unit raised. */
  method BuildPrefix(c: Text, field: Text, enc: Text) returns (lo: Text, hi: Text)
    ensures lo == GroupLower(c, field, enc) && hi == GroupUpper(c, field, enc)
  {
    lo := c;
    lo := lo + [0];
    lo := lo + field;
    lo := lo + [0];
    lo := lo + enc;
    lo := lo + [0];
    hi := lo;
    var last := |lo| - 1;
    hi := hi[last := 1];
  }

  /** Every key determines its collection, its document id and the text between them. */
  lemma KeyDeterminesRow(c: Text, f: Text, e: Text, u: Text, c': Text, f': Text, e': Text, u': Text)
    requires NulFree(c) && NulFree(c') && NulFree(u) && NulFree(u')
    requires IndexKey(c, f, e, u) == IndexKey(c', f', e', u')
    ensures c == c' && u == u' && f + [0] + e == f' + [0] + e'
  {
    SplitLast(GroupPrefix(c, f, e), u, GroupPrefix(c', f', e'), u');
    assert GroupPrefix(c, f, e) == c + [0] + (f + [0] + e);
    assert GroupPrefix(c', f', e') == c' + [0] + (f' + [0] + e');
    SplitFirst(c, f + [0] + e, c', f' + [0] + e');
  }

  /** A key under `c\0` belongs to collection `c`. */
  lemma KeyCollection(c: Text, c': Text, f: Text, e: Text, u: Text)
    requires NulFree(c) && NulFree(c') && c + [0] <= IndexKey(c', f, e, u)
    ensures c == c'
  {
    var rest := f + [0] + e + [0] + u;
    assert IndexKey(c', f, e, u) == c' + [0] + rest;
    SplitPrefix(c, c', rest);
  }

  /** With NUL-free field names the key is injective for every encoded value. */
  lemma KeyInjective(c: Text, f: Text, e: Text, u: Text, c': Text, f': Text, e': Text, u': Text)
    requires NulFree(c) && NulFree(c') && NulFree(u) && NulFree(u') && NulFree(f) && NulFree(f')
    ensures IndexKey(c, f, e, u) == IndexKey(c', f', e', u') <==> c == c' && f == f' && e == e' && u == u'
  {
    if IndexKey(c, f, e, u) == IndexKey(c', f', e', u') {
      KeyDeterminesRow(c, f, e, u, c', f', e', u');
      SplitFirst(f, e, f', e');
    }
  }

  /** The group range holds exactly the keys that continue the group prefix. */
  lemma GroupRange(c: Text, f: Text, e: Text, k: Text)
    ensures InRange(GroupLower(c, f, e), k, GroupUpper(c, f, e)) <==> GroupLower(c, f, e) <= k
  {
    RangeIsPrefix(GroupPrefix(c, f, e), k);
  }

  /** A key of another row lies in the group exactly when the encoded value does, provided no
      separator is hidden in either encoded value; without that proviso the group may also
      hold keys of longer values. */
  lemma GroupIsExact(c: Text, f: Text, e: Text, c': Text, f': Text, e': Text, u': Text)
    requires NulFree(c) && NulFree(c') && NulFree(f) && NulFree(f')
    requires NulFree(e) && NulFree(e')
    ensures InRange(GroupLower(c, f, e), IndexKey(c', f', e', u'), GroupUpper(c, f, e))
       <==> c == c' && f == f' && e == e'
  {
    GroupRange(c, f, e, IndexKey(c', f', e', u'));
    if GroupLower(c, f, e) <= IndexKey(c', f', e', u') {
      KeyInGroup(c, f, e, c', f', e', u');
      SplitPrefix(e, e', u');
    }
  }

  /** A key that continues a group prefix has the group's collection and field. */
  lemma KeyInGroup(c: Text, f: Text, e: Text, c': Text, f': Text, e': Text, u': Text)
    requires NulFree(c) && NulFree(c') && NulFree(f) && NulFree(f')
    requires GroupLower(c, f, e) <= IndexKey(c', f', e', u')
    ensures c == c' && f == f' && e + [0] <= e' + [0] + u'
  {
    var k := IndexKey(c', f', e', u');
    var tail := k[|GroupLower(c, f, e)|..];
    assert k == c + [0] + (f + [0] + (e + [0] + tail));
    assert k == c' + [0] + (f' + [0] + (e' + [0] + u'));
    SplitFirst(c, f + [0] + (e + [0] + tail), c', f' + [0] + (e' + [0] + u'));
    SplitFirst(f, e + [0] + tail, f', e' + [0] + u');
    assert e + [0] <= e + [0] + tail;
  }

  /** Inside a group the table order is the order of the document ids. */
  lemma GroupOrder(c: Text, f: Text, e: Text, u: Text, u': Text)
    ensures Less(IndexKey(c, f, e, u), IndexKey(c, f, e, u')) <==> Less(u, u')
  {
    PrefixLess(GroupLower(c, f, e), u, u');
  }

  /** Values of one field type with equal encodings are equal. */
  lemma EncodingInjective(ty: FieldType, v: Value, w: Value)
    requires !ty.ArrayType? && HasType(ty, v) && HasType(ty, w)
    ensures EncodeIndexValue(v) == EncodeIndexValue(w) <==> v == w
  {
    match (v, w)
    case (Num(m), Num(n)) => DecimalInjective(m, n);
    case (Bool(a), Bool(b)) => assert EncodeIndexValue(v)[0] == (if a then 1 else 0);
    case (Str(_), Str(_)) =>
  }
}
