/**
 * The RPSL object of the whois library: a non-empty, ordered list of attributes whose first
 * attribute names the object's type. Lookups by attribute type are served from a lazily built
 * grouping of the attributes by type; the object's key is derived from its template's key
 * attributes; equality compares the attribute lists; the hash code is memoised and never 0.
 */
module RpslObjects {
  import opened Wrappers

  /** Java's 32-bit `int`, the type of `hashCode`. */
  newtype int32 = x: int | -0x8000_0000 <= x < 0x8000_0000

  /** The attribute types the model names; every other type is kept by its name. */
  datatype AttributeType =
    | AutNumAttribute | AsName | Export | Import | MemberOf | Members | MbrsByRef | MntBy
    | OtherAttribute(name: string)

  /** The object types the model names; every other type is kept by its name. */
  datatype ObjectType = AutNumObject | RouteObject | RouteSetObject | AsSetObject | OtherObject(name: string)

  /** One (keyword, values) pair of an attribute's token list, such as ("to", ["AS1", "1.1.1.1"]). */
  datatype Token = Token(keyword: string, values: seq<string>)

  /**
   * An attribute as the tokenizer delivers it: the key as written, its type (None for a key
   * the tokenizer does not know), its clean value, its clean values as a list, and its
   * token list.
   */
  datatype RpslAttribute = RpslAttribute(
    key: string,
    attrType: Option<AttributeType>,
    cleanValue: string,
    cleanValues: seq<string>,
    tokenList: seq<Token>)

  /** The exceptions the object's constructor and lookups throw. */
  datatype RpslError =
    | EmptyAttributeList                      // the attribute list is empty
    | NotFound(missing: AttributeType)        // exactly one was required, none is there
    | Multiple(repeated: AttributeType)       // exactly one was required, several are there
    | EmptyKeyValue(keyType: AttributeType)   // a key attribute has an empty value
    | NullTypeList(absent: AttributeType)     // a value list was requested for an absent type

  predicate Distinct<T(==)>(s: seq<T>) {
    forall i, j :: 0 <= i < j < |s| ==> s[i] != s[j]
  }

  /** The attributes of `s` whose type is `t`, in their original order. */
  function OfType(s: seq<RpslAttribute>, t: AttributeType): (r: seq<RpslAttribute>)
    ensures |r| <= |s|
  {
    if s == [] then []
    else if s[0].attrType == Some(t) then [s[0]] + OfType(s[1..], t)
    else OfType(s[1..], t)
  }

  /** Exactly the attributes of type `t` are kept; untyped attributes belong to no type. */
  lemma {:induction false} OfTypeMembers(s: seq<RpslAttribute>, t: AttributeType)
    ensures forall a :: a in OfType(s, t) <==> a in s && a.attrType == Some(t)
  {
    if s != [] {
      OfTypeMembers(s[1..], t);
      assert s == [s[0]] + s[1..];
    }
  }

  lemma {:induction false} OfTypeAppend(s: seq<RpslAttribute>, a: RpslAttribute, t: AttributeType)
    ensures OfType(s + [a], t) == OfType(s, t) + (if a.attrType == Some(t) then [a] else [])
  {
    if s != [] {
      assert (s + [a])[1..] == s[1..] + [a];
      OfTypeAppend(s[1..], a, t);
    }
  }

  /** `i` is the position of the first attribute of type `t` in `s`. */
  ghost predicate FirstOfType(s: seq<RpslAttribute>, t: AttributeType, i: int) {
    && 0 <= i < |s|
    && s[i].attrType == Some(t)
    && forall j :: 0 <= j < i ==> s[j].attrType != Some(t)
  }

  /** Two different positions of `s` hold attributes of type `t`. */
  ghost predicate TwoOfType(s: seq<RpslAttribute>, t: AttributeType) {
    exists i, j :: 0 <= i < j < |s| && s[i].attrType == Some(t) && s[j].attrType == Some(t)
  }

  lemma {:induction false} OfTypeHead(s: seq<RpslAttribute>, t: AttributeType)
    requires OfType(s, t) != []
    ensures exists i :: FirstOfType(s, t, i) && OfType(s, t)[0] == s[i]
  {
    if s[0].attrType == Some(t) {
      assert FirstOfType(s, t, 0);
    } else {
      OfTypeHead(s[1..], t);
      var i :| FirstOfType(s[1..], t, i) && OfType(s[1..], t)[0] == s[1..][i];
      assert FirstOfType(s, t, i + 1);
    }
  }

  lemma {:induction false} TwoOfTypeCounted(s: seq<RpslAttribute>, t: AttributeType)
    requires TwoOfType(s, t)
    ensures |OfType(s, t)| >= 2
  {
    var i, j :| 0 <= i < j < |s| && s[i].attrType == Some(t) && s[j].attrType == Some(t);
    if i == 0 {
      assert s[j] == s[1..][j - 1];
      OfTypeMembers(s[1..], t);
      assert s[j] in OfType(s[1..], t);
    } else {
      assert s[1..][i - 1] == s[i] && s[1..][j - 1] == s[j];
      TwoOfTypeCounted(s[1..], t);
    }
  }

  lemma {:induction false} CountedTwoOfType(s: seq<RpslAttribute>, t: AttributeType)
    requires |OfType(s, t)| >= 2
    ensures TwoOfType(s, t)
  {
    var rest := OfType(s[1..], t);
    if s[0].attrType == Some(t) {
      OfTypeMembers(s[1..], t);
      assert rest[0] in rest;
      var k := MemberPosition(s[1..], rest[0]);
      assert s[k + 1] == s[1..][k];
      assert 0 < k + 1 < |s| && s[0].attrType == Some(t) && s[k + 1].attrType == Some(t);
    } else {
      CountedTwoOfType(s[1..], t);
      var i, j :| 0 <= i < j < |s[1..]| && s[1..][i].attrType == Some(t) && s[1..][j].attrType == Some(t);
      assert s[i + 1] == s[1..][i] && s[j + 1] == s[1..][j];
    }
  }

  lemma MemberPosition(s: seq<RpslAttribute>, a: RpslAttribute) returns (k: nat)
    requires a in s
    ensures k < |s| && s[k] == a
  {
    k :| k < |s| && s[k] == a;
  }

  lemma OfTypeTwo(s: seq<RpslAttribute>, t: AttributeType)
    ensures |OfType(s, t)| >= 2 <==> TwoOfType(s, t)
  {
    if TwoOfType(s, t) { TwoOfTypeCounted(s, t); }
    if |OfType(s, t)| >= 2 { CountedTwoOfType(s, t); }
  }

  /** The types that occur in `s`; untyped attributes contribute none. */
  function TypesIn(s: seq<RpslAttribute>): set<AttributeType> {
    set a | a in s && a.attrType.Some? :: a.attrType.value
  }

  lemma OfTypeEmptyIffAbsent(s: seq<RpslAttribute>, t: AttributeType)
    ensures OfType(s, t) == [] <==> t !in TypesIn(s)
    ensures OfType(s, t) == [] <==> forall i :: 0 <= i < |s| ==> s[i].attrType != Some(t)
  {
    OfTypeMembers(s, t);
    if OfType(s, t) != [] {
      assert OfType(s, t)[0] in OfType(s, t);
    }
    if t in TypesIn(s) {
      var a :| a in s && a.attrType == Some(t);
      assert a in OfType(s, t);
    }
    if exists i :: 0 <= i < |s| && s[i].attrType == Some(t) {
      var i :| 0 <= i < |s| && s[i].attrType == Some(t);
      assert s[i] in OfType(s, t);
    }
  }

  /** The value the type cache holds: every occurring type mapped to its attributes. */
  function TypeGroups(s: seq<RpslAttribute>): map<AttributeType, seq<RpslAttribute>> {
    map t | t in TypesIn(s) :: OfType(s, t)
  }

  lemma TypeGroupsAt(s: seq<RpslAttribute>, u: AttributeType)
    ensures u in TypeGroups(s) <==> OfType(s, u) != []
    ensures u in TypeGroups(s) ==> TypeGroups(s)[u] == OfType(s, u)
  {
    OfTypeEmptyIffAbsent(s, u);
  }

  lemma TypeGroupsAppend(s: seq<RpslAttribute>, a: RpslAttribute)
    ensures a.attrType.None? ==> TypeGroups(s + [a]) == TypeGroups(s)
    ensures a.attrType.Some? ==>
      var t, g := a.attrType.value, TypeGroups(s);
      TypeGroups(s + [a]) == g[t := (if t in g then g[t] else []) + [a]]
  {
    var g, g' := TypeGroups(s), TypeGroups(s + [a]);
    var h := if a.attrType.None? then g
      else g[a.attrType.value := (if a.attrType.value in g then g[a.attrType.value] else []) + [a]];
    forall u
      ensures u in g' <==> u in h
      ensures u in g' ==> g'[u] == h[u]
    {
      OfTypeAppend(s, a, u);
      TypeGroupsAt(s, u);
      TypeGroupsAt(s + [a], u);
    }
    assert g'.Keys == h.Keys;
  }

  /** A key attribute contributes to the key: it occurs exactly once, with a non-empty value. */
  ghost predicate KeyPart(s: seq<RpslAttribute>, k: AttributeType) {
    |OfType(s, k)| == 1 && OfType(s, k)[0].cleanValue != ""
  }

  ghost predicate KeyDerivable(s: seq<RpslAttribute>, keyAttributes: seq<AttributeType>) {
    forall i :: 0 <= i < |keyAttributes| ==> KeyPart(s, keyAttributes[i])
  }

  /** The first `n` key attributes' values, concatenated in key-attribute order. */
  ghost function JoinedKey(s: seq<RpslAttribute>, keyAttributes: seq<AttributeType>, n: nat): string
    requires n <= |keyAttributes|
    requires forall i :: 0 <= i < n ==> KeyPart(s, keyAttributes[i])
  {
    if n == 0 then ""
    else
      assert KeyPart(s, keyAttributes[n - 1]);
      JoinedKey(s, keyAttributes, n - 1) + OfType(s, keyAttributes[n - 1])[0].cleanValue
  }

  /** Position `i` holds the first key attribute that does not contribute to the key. */
  ghost predicate FirstBadKey(s: seq<RpslAttribute>, keyAttributes: seq<AttributeType>, i: int) {
    && 0 <= i < |keyAttributes|
    && (forall j :: 0 <= j < i ==> KeyPart(s, keyAttributes[j]))
    && !KeyPart(s, keyAttributes[i])
  }

  /** The exception a key attribute that does not contribute raises. */
  function KeyError(s: seq<RpslAttribute>, k: AttributeType): RpslError {
    if |OfType(s, k)| == 0 then NotFound(k)
    else if |OfType(s, k)| > 1 then Multiple(k)
    else EmptyKeyValue(k)
  }

  /** The attributes of the types `ts`, type by type in the order requested. */
  function ConcatOfTypes(s: seq<RpslAttribute>, ts: seq<AttributeType>): seq<RpslAttribute> {
    if ts == [] then [] else ConcatOfTypes(s, ts[..|ts| - 1]) + OfType(s, ts[|ts| - 1])
  }

  lemma {:induction false} ConcatOfTypesMembers(s: seq<RpslAttribute>, ts: seq<AttributeType>)
    ensures forall a :: a in ConcatOfTypes(s, ts) <==>
      a in s && a.attrType.Some? && a.attrType.value in ts
  {
    if ts != [] {
      var init := ts[..|ts| - 1];
      ConcatOfTypesMembers(s, init);
      OfTypeMembers(s, ts[|ts| - 1]);
      assert ts == init + [ts[|ts| - 1]];
    }
  }

  /** LinkedHashSet.addAll: appends the values of `vs` not already present, in order. */
  function AddAll(acc: seq<string>, vs: seq<string>): (r: seq<string>)
    ensures Distinct(acc) ==> Distinct(r)
    ensures forall v {:trigger v in r} :: v in r <==> v in acc || v in vs
    ensures acc <= r
    decreases vs
  {
    if vs == [] then acc
    else AddAll(if vs[0] in acc then acc else acc + [vs[0]], vs[1..])
  }

  /** The position of the first occurrence of `v` in `vs`. */
  function IndexOf(vs: seq<string>, v: string): (k: nat)
    requires v in vs
    ensures k < |vs| && vs[k] == v
    ensures forall j :: 0 <= j < k ==> vs[j] != v
  {
    if vs[0] == v then 0 else 1 + IndexOf(vs[1..], v)
  }

  /** The values addAll appends are new: none of them was in the set before. */
  lemma {:induction false} AddAllAppendsNew(acc: seq<string>, vs: seq<string>)
    ensures forall i :: |acc| <= i < |AddAll(acc, vs)| ==> AddAll(acc, vs)[i] !in acc
    decreases vs
  {
    if vs != [] {
      var acc' := if vs[0] in acc then acc else acc + [vs[0]];
      var r := AddAll(acc, vs);
      assert r == AddAll(acc', vs[1..]);
      AddAllAppendsNew(acc', vs[1..]);
      if vs[0] !in acc {
        assert r[|acc|] == acc'[|acc|] == vs[0];
      }
    }
  }

  /** addAll appends the new values in the order of their first occurrence in `vs`. */
  lemma {:induction false} AddAllOrder(acc: seq<string>, vs: seq<string>)
    ensures var r := AddAll(acc, vs);
      forall i, j :: |acc| <= i < j < |r| ==>
        r[i] in vs && r[j] in vs && IndexOf(vs, r[i]) < IndexOf(vs, r[j])
    decreases vs
  {
    if vs != [] {
      var acc' := if vs[0] in acc then acc else acc + [vs[0]];
      var r := AddAll(acc, vs);
      assert r == AddAll(acc', vs[1..]);
      AddAllOrder(acc', vs[1..]);
      AddAllAppendsNew(acc', vs[1..]);
      forall k | |acc'| <= k < |r|
        ensures r[k] in vs[1..] && r[k] in vs && IndexOf(vs, r[k]) == 1 + IndexOf(vs[1..], r[k])
      {
        assert r[k] in r && r[k] !in acc';
        assert vs[0] in acc' && r[k] != vs[0];
        assert vs == [vs[0]] + vs[1..];
      }
      forall i, j | |acc| <= i < j < |r|
        ensures r[i] in vs && r[j] in vs && IndexOf(vs, r[i]) < IndexOf(vs, r[j])
      {
        if i < |acc'| {
          assert r[i] == acc'[i] == vs[0];
        }
      }
    }
  }

  /** addAll of a concatenation is addAll of the first part, then of the second. */
  lemma {:induction false} AddAllConcat(acc: seq<string>, xs: seq<string>, ys: seq<string>)
    ensures AddAll(acc, xs + ys) == AddAll(AddAll(acc, xs), ys)
    decreases xs
  {
    if xs != [] {
      var acc' := if xs[0] in acc then acc else acc + [xs[0]];
      assert (xs + ys)[0] == xs[0] && (xs + ys)[1..] == xs[1..] + ys;
      assert AddAll(acc, xs + ys) == AddAll(acc', xs[1..] + ys);
      assert AddAll(acc, xs) == AddAll(acc', xs[1..]);
      AddAllConcat(acc', xs[1..], ys);
    } else {
      assert xs + ys == ys;
    }
  }

  /** The clean values of the attributes of `s`, concatenated in order, repeats kept. */
  function CleanValuesOf(s: seq<RpslAttribute>): seq<string> {
    if s == [] then [] else CleanValuesOf(s[..|s| - 1]) + s[|s| - 1].cleanValues
  }

  lemma {:induction false} CleanValuesOfConcat(s: seq<RpslAttribute>, t: seq<RpslAttribute>)
    ensures CleanValuesOf(s + t) == CleanValuesOf(s) + CleanValuesOf(t)
    decreases |t|
  {
    if t != [] {
      var init := t[..|t| - 1];
      CleanValuesOfConcat(s, init);
      assert (s + t)[..|s + t| - 1] == s + init;
      assert (s + t)[|s + t| - 1] == t[|t| - 1];
      assert CleanValuesOf(s + t) == CleanValuesOf(s + init) + t[|t| - 1].cleanValues;
      assert CleanValuesOf(t) == CleanValuesOf(init) + t[|t| - 1].cleanValues;
    } else {
      assert s + t == s;
    }
  }

  /** The concatenated clean values hold exactly the clean values of the attributes of `s`. */
  lemma {:induction false} CleanValuesOfMembers(s: seq<RpslAttribute>)
    ensures forall v :: v in CleanValuesOf(s) <==> exists a :: a in s && v in a.cleanValues
  {
    if s != [] {
      CleanValuesOfMembers(s[..|s| - 1]);
      assert s == s[..|s| - 1] + [s[|s| - 1]];
    }
  }

  /**
   * The values getValuesForAttribute collects for the types `ts`: type by type, the clean
   * values of that type's attributes added to an insertion-ordered set.
   */
  function CollectedValues(s: seq<RpslAttribute>, ts: seq<AttributeType>): seq<string> {
    if ts == [] then []
    else AddAll(CollectedValues(s, ts[..|ts| - 1]), CleanValuesOf(OfType(s, ts[|ts| - 1])))
  }

  /**
   * Collecting type by type is adding, to an empty set, all clean values of the requested
   * types' attributes in one pass (so AddAllOrder gives the order of the result).
   */
  lemma {:induction false} CollectedValuesFlat(s: seq<RpslAttribute>, ts: seq<AttributeType>)
    ensures CollectedValues(s, ts) == AddAll([], CleanValuesOf(ConcatOfTypes(s, ts)))
  {
    if ts != [] {
      var pre, t := ts[..|ts| - 1], ts[|ts| - 1];
      CollectedValuesFlat(s, pre);
      CleanValuesOfConcat(ConcatOfTypes(s, pre), OfType(s, t));
      AddAllConcat([], CleanValuesOf(ConcatOfTypes(s, pre)), CleanValuesOf(OfType(s, t)));
    }
  }

  /** Collecting one more requested type adds the clean values of its cached list. */
  lemma CollectStep(s: seq<RpslAttribute>, ts: seq<AttributeType>, i: nat)
    requires i < |ts|
    ensures CollectedValues(s, ts[..i + 1]) ==
      AddAll(CollectedValues(s, ts[..i]), CleanValuesOf(OfType(s, ts[i])))
  {
    assert ts[..i + 1][..i] == ts[..i];
  }

  /**
   * The values collected for the types `ts` are duplicate-free and are exactly the clean
   * values of the attributes whose type is requested.
   */
  lemma CollectedValuesMembers(s: seq<RpslAttribute>, ts: seq<AttributeType>)
    ensures Distinct(CollectedValues(s, ts))
    ensures forall v :: v in CollectedValues(s, ts) <==>
      exists a :: a in s && a.attrType.Some? && a.attrType.value in ts && v in a.cleanValues
  {
    CollectedValuesFlat(s, ts);
    ConcatOfTypesMembers(s, ts);
    CleanValuesOfMembers(ConcatOfTypes(s, ts));
  }

  /** Iterables.elementsEqual: the two lists agree position by position. */
  function ElementsEqual(xs: seq<RpslAttribute>, ys: seq<RpslAttribute>): (r: bool)
    ensures r <==> xs == ys
  {
    if xs == [] || ys == [] then xs == [] && ys == []
    else xs[0] == ys[0] && ElementsEqual(xs[1..], ys[1..])
  }

  /** The memoised hash: the list's hash, with 0 replaced by -1. */
  function NonZeroHash(h: int32): (r: int32)
    ensures r != 0
    ensures h != 0 ==> r == h
    ensures h == 0 ==> r == -1
  {
    if h == 0 then h - 1 else h
  }

  class RpslObject {
    const attributes: seq<RpslAttribute>
    const typeAttribute: RpslAttribute
    const objectType: ObjectType
    /** Java's `List.hashCode` of the attribute list; its arithmetic is not modelled. */
    const listHash: seq<RpslAttribute> -> int32
    var key: string
    var typeCache: Option<map<AttributeType, seq<RpslAttribute>>>
    var hash: int32

    ghost predicate Valid()
      reads this
    {
      && |attributes| > 0
      && typeAttribute == attributes[0]
      && (typeCache.Some? ==> typeCache.value == TypeGroups(attributes))
      && (hash == 0 || hash == HashValue())
    }

    /** Allocation only; `Create` is the constructor's checks and key derivation. */
    constructor (attributes: seq<RpslAttribute>, objectType: ObjectType, listHash: seq<RpslAttribute> -> int32)
      requires |attributes| > 0
      ensures Valid()
      ensures this.attributes == attributes && typeAttribute == attributes[0]
      ensures this.objectType == objectType && this.listHash == listHash
      ensures key == "" && typeCache == None && hash == 0
    {
      this.attributes := attributes;
      this.typeAttribute := attributes[0];
      this.objectType := objectType;
      this.listHash := listHash;
      key := "";
      typeCache := None;
      hash := 0;
    }

    /**
     * The constructor: rejects an empty list, takes the type from the first attribute's key
     * and derives the key from the template's key attributes.
     */
    static method Create(attributes: seq<RpslAttribute>, typeByName: string -> ObjectType,
                         keyAttributesOf: ObjectType -> seq<AttributeType>,
                         listHash: seq<RpslAttribute> -> int32)
      returns (r: Result<RpslObject, RpslError>)
      ensures |attributes| == 0 ==> r == Failure(EmptyAttributeList)
      ensures |attributes| > 0 ==>
        (r.Success? <==> KeyDerivable(attributes, keyAttributesOf(typeByName(attributes[0].key))))
      ensures r.Success? ==>
        && fresh(r.value) && r.value.Valid()
        && r.value.attributes == attributes && r.value.typeAttribute == attributes[0]
        && r.value.objectType == typeByName(attributes[0].key)
        && var keyAttributes := keyAttributesOf(typeByName(attributes[0].key));
           r.value.key == JoinedKey(attributes, keyAttributes, |keyAttributes|)
    {
      if |attributes| == 0 {
        return Failure(EmptyAttributeList);
      }
      var obj := new RpslObject(attributes, typeByName(attributes[0].key), listHash);
      var key := obj.BuildKey(keyAttributesOf(obj.objectType));
      if key.Failure? {
        return Failure(key.error);
      }
      obj.key := key.value;
      return Success(obj);
    }

    /**
     * The key derivation of the constructor: one key attribute gives its value, several give
     * their values concatenated; a missing, repeated or empty key attribute fails.
     */
    method BuildKey(keyAttributes: seq<AttributeType>) returns (r: Result<string, RpslError>)
      ensures r.Success? <==> KeyDerivable(attributes, keyAttributes)
      ensures r.Success? ==> r.value == JoinedKey(attributes, keyAttributes, |keyAttributes|)
      ensures r.Failure? ==> exists i ::
        FirstBadKey(attributes, keyAttributes, i) && r.error == KeyError(attributes, keyAttributes[i])
    {
      if |keyAttributes| == 1 {
        var value := GetValueForAttribute(keyAttributes[0]);
        if value.Failure? {
          assert FirstBadKey(attributes, keyAttributes, 0);
          return Failure(value.error);
        }
        if value.value == "" {
          assert FirstBadKey(attributes, keyAttributes, 0);
          return Failure(EmptyKeyValue(keyAttributes[0]));
        }
        return Success(value.value);
      }
      var builder := "";
      for i := 0 to |keyAttributes|
        invariant forall j :: 0 <= j < i ==> KeyPart(attributes, keyAttributes[j])
        invariant builder == JoinedKey(attributes, keyAttributes, i)
      {
        var value := GetValueForAttribute(keyAttributes[i]);
        if value.Failure? {
          assert FirstBadKey(attributes, keyAttributes, i);
          return Failure(value.error);
        }
        if value.value == "" {
          assert FirstBadKey(attributes, keyAttributes, i);
          return Failure(EmptyKeyValue(keyAttributes[i]));
        }
        builder := builder + value.value;
      }
      return Success(builder);
    }

    /** Fills the type cache on first use and returns it. */
    method GetOrCreateCache() returns (cache: map<AttributeType, seq<RpslAttribute>>)
      requires Valid()
      modifies this`typeCache
      ensures Valid() && typeCache == Some(cache)
      ensures cache == TypeGroups(attributes)
    {
      if typeCache.None? {
        var m: map<AttributeType, seq<RpslAttribute>> := map[];
        for i := 0 to |attributes|
          invariant m == TypeGroups(attributes[..i])
        {
          var attribute := attributes[i];
          assert attributes[..i + 1] == attributes[..i] + [attribute];
          TypeGroupsAppend(attributes[..i], attribute);
          if attribute.attrType.None? {
            continue;
          }
          var t := attribute.attrType.value;
          var list := if t in m then m[t] else [];
          m := m[t := list + [attribute]];
        }
        assert attributes[..|attributes|] == attributes;
        typeCache := Some(m);
      }
      cache := typeCache.value;
    }

    /** The attributes of type `t`, in their original order, read from the grouping. */
    function FindAttributes(t: AttributeType): (r: seq<RpslAttribute>)
      ensures r == OfType(attributes, t)
      ensures forall a :: a in r <==> a in attributes && a.attrType == Some(t)
    {
      var groups := TypeGroups(attributes);
      OfTypeEmptyIffAbsent(attributes, t);
      OfTypeMembers(attributes, t);
      if t in groups then groups[t] else []
    }

    /** The only attribute of type `t`; none or several throw. */
    function FindAttribute(t: AttributeType): (r: Result<RpslAttribute, RpslError>)
      ensures r.Success? <==> |OfType(attributes, t)| == 1
      ensures r == Failure(NotFound(t)) <==>
        forall i :: 0 <= i < |attributes| ==> attributes[i].attrType != Some(t)
      ensures r == Failure(Multiple(t)) <==> TwoOfType(attributes, t)
      ensures r.Success? ==> OfType(attributes, t) == [r.value] && r.value in attributes
      ensures r.Failure? ==> r.error == KeyError(attributes, t)
    {
      var found := FindAttributes(t);
      OfTypeTwo(attributes, t);
      OfTypeEmptyIffAbsent(attributes, t);
      OfTypeMembers(attributes, t);
      if |found| == 0 then Failure(NotFound(t))
      else if |found| == 1 then Success(found[0])
      else Failure(Multiple(t))
    }

    /** The clean value of the only attribute of type `t`; none or several throw. */
    function GetValueForAttribute(t: AttributeType): (r: Result<string, RpslError>)
      ensures r.Success? <==> |OfType(attributes, t)| == 1
      ensures r.Success? ==> r.value == OfType(attributes, t)[0].cleanValue
      ensures r.Failure? ==> r.error == KeyError(attributes, t)
    {
      match FindAttribute(t)
      case Success(a) => Success(a.cleanValue)
      case Failure(e) => Failure(e)
    }

    /** The clean value of the first attribute of type `t`, or None (Java's null). */
    function GetValueOrNullForAttribute(t: AttributeType): (r: Option<string>)
      ensures r.None? <==> forall i :: 0 <= i < |attributes| ==> attributes[i].attrType != Some(t)
      ensures r.Some? ==> exists i :: FirstOfType(attributes, t, i) && r.value == attributes[i].cleanValue
    {
      var found := FindAttributes(t);
      OfTypeEmptyIffAbsent(attributes, t);
      if found == [] then None
      else
        OfTypeHead(attributes, t);
        Some(found[0].cleanValue)
    }

    /** Some attribute has type `t`. */
    function ContainsAttribute(t: AttributeType): (r: bool)
      ensures r <==> exists i :: 0 <= i < |attributes| && attributes[i].attrType == Some(t)
    {
      TypeGroupsAt(attributes, t);
      OfTypeEmptyIffAbsent(attributes, t);
      t in TypeGroups(attributes)
    }

    /** Some type of `ts` is contained; the scan stops at the first one that is. */
    method ContainsAttributes(ts: seq<AttributeType>) returns (b: bool)
      ensures b <==> exists k :: 0 <= k < |ts| && ContainsAttribute(ts[k])
    {
      for k := 0 to |ts|
        invariant forall j :: 0 <= j < k ==> !ContainsAttribute(ts[j])
      {
        if ContainsAttribute(ts[k]) {
          return true;
        }
      }
      return false;
    }

    /** The attributes of the types `ts`, type by type in the order requested. */
    method FindAttributesOf(ts: seq<AttributeType>) returns (r: seq<RpslAttribute>)
      requires Valid()
      modifies this`typeCache
      ensures Valid() && typeCache == Some(TypeGroups(attributes))
      ensures r == ConcatOfTypes(attributes, ts)
    {
      r := [];
      var _ := GetOrCreateCache();
      for i := 0 to |ts|
        invariant Valid() && typeCache == Some(TypeGroups(attributes))
        invariant r == ConcatOfTypes(attributes, ts[..i])
      {
        var cache := GetOrCreateCache();
        assert ts[..i + 1][..i] == ts[..i];
        TypeGroupsAt(attributes, ts[i]);
        if ts[i] in cache {
          r := r + cache[ts[i]];
        }
      }
      assert ts[..|ts|] == ts;
    }

    /**
     * The clean values of all attributes of the types `ts`, each value once, in the order
     * they are first met. A requested type with no attribute makes getValuesForAttribute
     * dereference a missing list.
     */
    method GetValuesForAttribute(ts: seq<AttributeType>) returns (r: Result<seq<string>, RpslError>)
      requires Valid()
      modifies this`typeCache
      ensures Valid() && typeCache == Some(TypeGroups(attributes))
      ensures r.Failure? <==> exists k :: 0 <= k < |ts| && !ContainsAttribute(ts[k])
      ensures r.Failure? ==> exists k ::
        && 0 <= k < |ts| && !ContainsAttribute(ts[k])
        && (forall j :: 0 <= j < k ==> ContainsAttribute(ts[j]))
        && r.error == NullTypeList(ts[k])
      ensures r.Success? ==> Distinct(r.value)
      ensures r.Success? ==> forall v :: v in r.value <==>
        exists a :: a in attributes && a.attrType.Some? && a.attrType.value in ts && v in a.cleanValues
      ensures r.Success? ==> r.value == CollectedValues(attributes, ts)
    {
      var cache := GetOrCreateCache();
      forall t | t in cache
        ensures cache[t] == OfType(attributes, t)
      {
        TypeGroupsAt(attributes, t);
      }
      r := CollectFromCache(cache, attributes, ts);
      if r.Success? {
        CollectedValuesMembers(attributes, ts);
      }
    }

    /** Equality of objects: their attribute lists agree element by element. */
    function Equals(other: RpslObject): (r: bool)
      ensures r <==> attributes == other.attributes
    {
      this == other || ElementsEqual(attributes, other.attributes)
    }

    /** The value `hashCode` returns: the list's hash, never 0. */
    function HashValue(): (h: int32)
      ensures h != 0
      ensures listHash(attributes) != 0 ==> h == listHash(attributes)
    {
      NonZeroHash(listHash(attributes))
    }

    /** Returns the memoised hash, computing and storing it on first use. */
    method HashCode() returns (h: int32)
      requires Valid()
      modifies this`hash
      ensures Valid() && hash == h
      ensures h == HashValue() && h != 0
    {
      if hash == 0 {
        var result := listHash(attributes);
        if result == 0 {
          result := result - 1;
        }
        hash := result;
      }
      h := hash;
    }
  }

  /**
   * The loop of getValuesForAttribute over the filled type cache: fails on the first
   * requested type the cache has no list for, otherwise collects the lists' clean values.
   */
  method CollectFromCache(cache: map<AttributeType, seq<RpslAttribute>>, ghost s: seq<RpslAttribute>,
                          ts: seq<AttributeType>)
    returns (r: Result<seq<string>, RpslError>)
    requires forall t :: t in cache ==> cache[t] == OfType(s, t)
    ensures r.Failure? ==> exists k ::
      && 0 <= k < |ts| && ts[k] !in cache
      && (forall j :: 0 <= j < k ==> ts[j] in cache)
      && r.error == NullTypeList(ts[k])
    ensures r.Success? ==> (forall k :: 0 <= k < |ts| ==> ts[k] in cache) && r.value == CollectedValues(s, ts)
  {
    var values: seq<string> := [];
    for i := 0 to |ts|
      invariant forall j :: 0 <= j < i ==> ts[j] in cache
      invariant values == CollectedValues(s, ts[..i])
    {
      var t := ts[i];
      if t !in cache {
        assert ts[i] !in cache;
        return Failure(NullTypeList(t));
      }
      var list := cache[t];
      CollectStep(s, ts, i);
      values := AddValuesOf(values, list);
    }
    assert ts[..|ts|] == ts;
    return Success(values);
  }

  /** Adds the clean values of each attribute of `list`, in order, skipping those already present. */
  method AddValuesOf(values: seq<string>, list: seq<RpslAttribute>) returns (r: seq<string>)
    ensures values <= r
    ensures r == AddAll(values, CleanValuesOf(list))
  {
    r := values;
    for j := 0 to |list|
      invariant r == AddAll(values, CleanValuesOf(list[..j]))
    {
      assert list[..j + 1][..j] == list[..j];
      AddAllConcat(values, CleanValuesOf(list[..j]), list[j].cleanValues);
      r := AddAll(r, list[j].cleanValues);
    }
    assert list[..|list|] == list;
  }
}
