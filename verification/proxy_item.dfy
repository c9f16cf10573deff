/** ProxyItem: an actor interface paired with the proxy class generated for
    it. Two items are equal exactly when their interfaces have the same
    qualified name, and the hash is that name's Java string hash, so the
    processor's HashSet holds at most one proxy per interface. */
module ProxyItem {
  import opened Wrappers
  import opened Int32

  /** `type` is known by its qualified name; `proxyClass` by an id. */
  datatype ProxyItem = ProxyItem(typeName: string, proxyClass: nat)

  /** `equals(obj)`: `obj` is a ProxyItem (None stands for null or any
      other class) for an interface with the same qualified name. */
  predicate Equals(a: ProxyItem, obj: Option<ProxyItem>)
  {
    obj.Some? && a.typeName == obj.value.typeName
  }

  /** `String.hashCode()` as Java computes it: `h = 31 * h + c` over the
      characters, in 32-bit arithmetic. */
  function StringHash(s: string): (h: int)
    ensures IsInt32(h)
  {
    if s == [] then 0 else Wrap32(31 * StringHash(s[..|s| - 1]) + s[|s| - 1] as int)
  }

  /** The hash as an unbounded polynomial: sum of `s[i] * 31^(n-1-i)`. */
  function Polynomial(s: string): int
  {
    if s == [] then 0 else 31 * Polynomial(s[..|s| - 1]) + s[|s| - 1] as int
  }

  /** `hashCode()`. */
  function HashCode(a: ProxyItem): (h: int)
    ensures IsInt32(h)
  {
    StringHash(a.typeName)
  }

  /** Wrapping before multiplying by 31 does not change the wrapped result. */
  lemma WrapScaleAdd(x: int, c: int)
    ensures Wrap32(31 * Wrap32(x) + c) == Wrap32(31 * x + c)
  {
    var a := x - INT_MIN;
    var q := a / MODULUS;
    assert Wrap32(x) == x - q * MODULUS;
    assert 31 * Wrap32(x) + c - INT_MIN == (31 * x + c - INT_MIN) - (31 * q) * MODULUS;
    ModShift(31 * x + c - INT_MIN, 31 * q);
  }

  /** Java's step-by-step wrapping hash is the polynomial hash reduced to
      32 bits once at the end. */
  lemma {:induction false} StringHashIsPolynomial(s: string)
    ensures StringHash(s) == Wrap32(Polynomial(s))
    decreases |s|
  {
    if s != [] {
      var p := s[..|s| - 1];
      StringHashIsPolynomial(p);
      WrapScaleAdd(Polynomial(p), s[|s| - 1] as int);
    }
  }

  /** `equals` is an equivalence on items. */
  lemma EqualsIsEquivalence(a: ProxyItem, b: ProxyItem, c: ProxyItem)
    ensures Equals(a, Some(a))
    ensures Equals(a, Some(b)) ==> Equals(b, Some(a))
    ensures Equals(a, Some(b)) && Equals(b, Some(c)) ==> Equals(a, Some(c))
    ensures !Equals(a, None)
  {
  }

  /** `hashCode` agrees with `equals`: equal items hash alike, and the
      proxy class plays no part in either. */
  lemma EqualItemsHashAlike(a: ProxyItem, b: ProxyItem)
    requires Equals(a, Some(b))
    ensures HashCode(a) == HashCode(b)
    ensures Equals(a.(proxyClass := b.proxyClass), Some(b))
  {
  }

  /** The processor's `HashSet<ProxyItem>`, as the items it holds. */
  predicate NoTwoEqual(items: seq<ProxyItem>)
  {
    forall i, j :: 0 <= i < j < |items| ==> items[i].typeName != items[j].typeName
  }

  /** `add(item)`: true and the item stored when no equal item is held;
      false and the set unchanged otherwise. */
  function Add(items: seq<ProxyItem>, item: ProxyItem): (r: (bool, seq<ProxyItem>))
    ensures r.0 <==> forall i :: 0 <= i < |items| ==> !Equals(item, Some(items[i]))
    ensures r.0 ==> r.1 == items + [item]
    ensures !r.0 ==> r.1 == items
  {
    if exists i :: 0 <= i < |items| && Equals(item, Some(items[i])) then (false, items)
    else (true, items + [item])
  }

  /** Adding keeps one item per interface, and the interface is held
      afterwards either way. */
  lemma AddKeepsOnePerInterface(items: seq<ProxyItem>, item: ProxyItem)
    requires NoTwoEqual(items)
    ensures NoTwoEqual(Add(items, item).1)
    ensures exists i :: 0 <= i < |Add(items, item).1| && Add(items, item).1[i].typeName == item.typeName
  {
    var r := Add(items, item);
    if r.0 {
      assert r.1[|items|] == item;
    } else {
      var i :| 0 <= i < |items| && Equals(item, Some(items[i]));
      assert r.1[i].typeName == item.typeName;
    }
  }
}
