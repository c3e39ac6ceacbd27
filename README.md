# rpsl4j route-table core in Dafny

This project models two classes of the rpsl4j generator, which turns RPSL (RFC 2622)
aut-num objects into per-peer BGP export tables.

- `RpslObject` (module `RpslObjects`, file `rpsl_object.dfy`). An object is a non-empty,
  ordered list of attributes, and its first attribute names its type. The constructor takes
  the object type from that first attribute. It then derives the object key from the
  template's key attributes: a single key attribute gives its value, and several give their
  values joined. A missing, repeated or empty key attribute makes construction fail.
  - Lookups by attribute type use a lazily filled cache. The cache groups the attributes by
    type and keeps their original order. Attributes of unknown type are skipped.
  - `findAttribute` and `getValueForAttribute` demand exactly one attribute of the type.
  - `getValueOrNullForAttribute` returns the first such attribute's value, or null.
  - `findAttributes` of several types concatenates their groups in the order requested.
  - `getValuesForAttribute` collects the clean values of several types without duplicates.
    It throws when a requested type is absent.
  - Equality compares the attribute lists. The hash code is memoised and is never 0.
- `BGPAutNum` (module `BgpAutNums`, file `bgp_aut_num.dfy`).
  - Construction requires an aut-num object whose AS number parses and which has exactly
    one `as-name`.
  - It scans every `export` attribute's token list for peering clauses of the form
    `to <AS> [peer addresses] at <local router>`.
  - For every peering it puts the routes the attribute announces from that local router into
    a map. The map is keyed by (peer AS, peer address), and its keys keep first-insertion order.
  - `getASOfPeer` returns the AS of the first key with a given address, or -1.
  - `toString` renders `name (AS<n>)`.

Collaborators whose code is not part of this model are parameters of the model:
- `AutNum.parse` is `parseAS`, which returns None where `AutNum.parse` throws;
- `BGPRoute.resolveRoutes` is `resolveRoutes`;
- `ObjectType.getByName` is `typeByName`;
- the template's key attributes are `keyAttributesOf`;
- `List.hashCode` is `listHash`;
- the attribute's token list is the `tokenList` field of `RpslAttribute`.

Constructors that throw become static `Create` methods returning a `Result`. The Dafny
constructors only allocate.

Behaviour kept exactly as the code has it:
- **The bounds guard.** The guard `i < size + 1` at `BGPAutNum.java:109` always holds. When
  the last token is a `to`, the look-ahead for its `at` reads past the end, and the
  exception ends the whole scan. It then makes the `BGPAutNum` construction fail, even when
  earlier clauses were well formed (`PeeringIndexOutOfRange`, `TrailingPeeringExample`).
- **Malformed clauses are skipped.** A malformed `at`, a `to` with no values, or an AS that
  does not parse skips only that clause (`SkippedClauseExample`).
- **Addresses share the clause's AS.** The comment at `BGPAutNum.java:88` gives the second
  peer of `to AS1 1.1.1.1 2.2.2.2 at 3.3.3.3` the AS 2. Lines 138-140 give every listed
  address the clause's single AS. The model follows the code (`AddressedClauseExample`).
- **No routes, no key.** Guava's `putAll` with an empty collection adds no key, so a peer
  with no resolved routes gets no entry in the map.

## Model

| member | source | states |
|---|---|---|
| RpslObjects.OfTypeMembers | ripe-rpsl/src/main/java/net/ripe/db/whois/common/rpsl/RpslObject.java:133-146 | a type's group holds exactly the attributes of that type; attributes with no type belong to no group |
| RpslObjects.TypeGroupsAppend | ripe-rpsl/src/main/java/net/ripe/db/whois/common/rpsl/RpslObject.java:133-146 | one step of filling the cache: an untyped attribute changes nothing; a typed one is appended to its type's list, which is created when the type is new |
| RpslObjects.TypeGroupsAt | ripe-rpsl/src/main/java/net/ripe/db/whois/common/rpsl/RpslObject.java:129-152 | the cache has a key for a type exactly when some attribute has it, and its list is that type's attributes in order |
| RpslObjects.OfTypeEmptyIffAbsent | ripe-rpsl/src/main/java/net/ripe/db/whois/common/rpsl/RpslObject.java:201-203 | a type's list is empty exactly when the type is not a cache key, exactly when no attribute has it |
| RpslObjects.OfTypeHead | ripe-rpsl/src/main/java/net/ripe/db/whois/common/rpsl/RpslObject.java:231-238 | the head of a type's list is the first attribute of that type in the object |
| RpslObjects.OfTypeTwo | ripe-rpsl/src/main/java/net/ripe/db/whois/common/rpsl/RpslObject.java:154-164 | a type's list has two or more entries exactly when two distinct positions carry that type |
| RpslObjects.ConcatOfTypesMembers | ripe-rpsl/src/main/java/net/ripe/db/whois/common/rpsl/RpslObject.java:171-190 | the multi-type lookup holds exactly the attributes whose type is requested |
| RpslObjects.CleanValuesOfMembers | ripe-rpsl/src/main/java/net/ripe/db/whois/common/rpsl/RpslObject.java:246-248 | the clean values gathered from a list of attributes are exactly those attributes' clean values |
| RpslObjects.CleanValuesOfConcat | ripe-rpsl/src/main/java/net/ripe/db/whois/common/rpsl/RpslObject.java:246-248 | gathering clean values over two lists is gathering them over each list in turn |
| RpslObjects.AddAll | ripe-rpsl/src/main/java/net/ripe/db/whois/common/rpsl/RpslObject.java:247 | adding to the insertion-ordered value set keeps it duplicate-free, keeps the old entries first and adds exactly the new values |
| RpslObjects.AddAllAppendsNew | ripe-rpsl/src/main/java/net/ripe/db/whois/common/rpsl/RpslObject.java:247 | every entry the insertion-ordered set gains was not in it before |
| RpslObjects.AddAllOrder | ripe-rpsl/src/main/java/net/ripe/db/whois/common/rpsl/RpslObject.java:247 | the entries the set gains come in the order of their first occurrence in the added values |
| RpslObjects.AddAllConcat | ripe-rpsl/src/main/java/net/ripe/db/whois/common/rpsl/RpslObject.java:244-249 | adding a concatenation is adding its first part, then its second |
| RpslObjects.CollectedValuesFlat | ripe-rpsl/src/main/java/net/ripe/db/whois/common/rpsl/RpslObject.java:243-252 | collecting type by type equals adding, to an empty set, the clean values of all requested attributes in request order |
| RpslObjects.CollectedValuesMembers | ripe-rpsl/src/main/java/net/ripe/db/whois/common/rpsl/RpslObject.java:240-252 | the collected values are duplicate-free and are exactly the clean values of the attributes of requested types |
| RpslObjects.ElementsEqual | ripe-rpsl/src/main/java/net/ripe/db/whois/common/rpsl/RpslObject.java:109 | element-by-element comparison is true exactly when the lists are equal |
| RpslObjects.NonZeroHash | ripe-rpsl/src/main/java/net/ripe/db/whois/common/rpsl/RpslObject.java:115-119 | the memoised hash is never 0: it is the list hash when that is non-zero and -1 otherwise |
| RpslObjects.RpslObject.constructor | ripe-rpsl/src/main/java/net/ripe/db/whois/common/rpsl/RpslObject.java:42-47 | allocation: attributes, type attribute (the first), type and hash function set; cache empty, hash unset |
| RpslObjects.RpslObject.Create | ripe-rpsl/src/main/java/net/ripe/db/whois/common/rpsl/RpslObject.java:42-62 | an empty list throws; otherwise construction succeeds exactly when every key attribute occurs once with a non-empty value, and the key is their values joined |
| RpslObjects.RpslObject.BuildKey | ripe-rpsl/src/main/java/net/ripe/db/whois/common/rpsl/RpslObject.java:49-61 | succeeds exactly when every key attribute occurs once with a non-empty value; the key is the values joined in order; on failure the error belongs to the first bad key attribute |
| RpslObjects.RpslObject.GetOrCreateCache | ripe-rpsl/src/main/java/net/ripe/db/whois/common/rpsl/RpslObject.java:129-152 | after the call the cache is filled and equals the grouping of the attributes by type, keeping the object valid |
| RpslObjects.RpslObject.FindAttributes | ripe-rpsl/src/main/java/net/ripe/db/whois/common/rpsl/RpslObject.java:166-169 | the attributes of the type in their order (empty when the type is absent); membership exactly by type |
| RpslObjects.RpslObject.FindAttribute | ripe-rpsl/src/main/java/net/ripe/db/whois/common/rpsl/RpslObject.java:154-164 | succeeds exactly when one attribute has the type and returns it; "No" exactly when none has it; "Multiple" exactly when two have it |
| RpslObjects.RpslObject.GetValueForAttribute | ripe-rpsl/src/main/java/net/ripe/db/whois/common/rpsl/RpslObject.java:227-229 | the clean value of the only attribute of the type; fails as the single-attribute lookup does |
| RpslObjects.RpslObject.GetValueOrNullForAttribute | ripe-rpsl/src/main/java/net/ripe/db/whois/common/rpsl/RpslObject.java:231-238 | null exactly when no attribute has the type; otherwise the clean value of the first one that does |
| RpslObjects.RpslObject.ContainsAttribute | ripe-rpsl/src/main/java/net/ripe/db/whois/common/rpsl/RpslObject.java:201-203 | true exactly when some attribute has the type |
| RpslObjects.RpslObject.ContainsAttributes | ripe-rpsl/src/main/java/net/ripe/db/whois/common/rpsl/RpslObject.java:192-199 | true exactly when some requested type is contained |
| RpslObjects.RpslObject.FindAttributesOf | ripe-rpsl/src/main/java/net/ripe/db/whois/common/rpsl/RpslObject.java:171-190 | the groups of the requested types concatenated in the order requested; the cache is left filled |
| RpslObjects.RpslObject.GetValuesForAttribute | ripe-rpsl/src/main/java/net/ripe/db/whois/common/rpsl/RpslObject.java:240-252 | fails exactly when a requested type is absent, naming the first such type; otherwise returns each clean value of each attribute of a requested type once, in the order first met type by type, and leaves the cache filled |
| RpslObjects.CollectFromCache | ripe-rpsl/src/main/java/net/ripe/db/whois/common/rpsl/RpslObject.java:242-251 | over the filled cache, fails at the first requested type with no list, and otherwise returns the type-by-type collection of clean values |
| RpslObjects.AddValuesOf | ripe-rpsl/src/main/java/net/ripe/db/whois/common/rpsl/RpslObject.java:246-248 | adding one type's attributes keeps the earlier values first and appends their clean values, attribute by attribute, as the insertion-ordered set does |
| RpslObjects.RpslObject.Equals | ripe-rpsl/src/main/java/net/ripe/db/whois/common/rpsl/RpslObject.java:98-110 | objects are equal exactly when their attribute lists are |
| RpslObjects.RpslObject.HashValue | ripe-rpsl/src/main/java/net/ripe/db/whois/common/rpsl/RpslObject.java:112-123 | the hash is never 0 and equals the list's hash when that is non-zero |
| RpslObjects.RpslObject.HashCode | ripe-rpsl/src/main/java/net/ripe/db/whois/common/rpsl/RpslObject.java:112-123 | returns the hash value and memoises it, keeping the object valid |
| BgpAutNums.ClauseDeclares | src/main/java/org/rpsl4j/emitters/rpsldocument/BGPAutNum.java:105-141 | a token contributes a peering exactly when it is a `to` with a parseable AS, followed by an `at` with one router, and the peering's address is a listed one (the wildcard when none is listed) |
| BgpAutNums.PeersUpToDeclared | src/main/java/org/rpsl4j/emitters/rpsldocument/BGPAutNum.java:99-142 | the peerings gathered from a token prefix are exactly those declared by clauses in it |
| BgpAutNums.ExportPeersDeclared | src/main/java/org/rpsl4j/emitters/rpsldocument/BGPAutNum.java:92-144 | a successful scan returns exactly the peerings that well-formed clauses declare |
| BgpAutNums.ClausePeerCount | src/main/java/org/rpsl4j/emitters/rpsldocument/BGPAutNum.java:133-141 | a clause with no address gives exactly one peering; with addresses, one per distinct address |
| BgpAutNums.GetExportPeers | src/main/java/org/rpsl4j/emitters/rpsldocument/BGPAutNum.java:92-144 | fails exactly for a non-export attribute or a trailing `to`; otherwise yields the scan's peerings |
| BgpAutNums.AddressedClauseExample | src/main/java/org/rpsl4j/emitters/rpsldocument/BGPAutNum.java:134-141 | `to AS1 1.1.1.1 2.2.2.2 at 3.3.3.3` yields the two peerings (1, 1.1.1.1) and (1, 2.2.2.2) via 3.3.3.3 |
| BgpAutNums.SkippedClauseExample | src/main/java/org/rpsl4j/emitters/rpsldocument/BGPAutNum.java:108-114 | a clause whose `at` names two routers is skipped; the next clause still yields its wildcard peering |
| BgpAutNums.TrailingPeeringExample | src/main/java/org/rpsl4j/emitters/rpsldocument/BGPAutNum.java:109-111 | a `to` in last position fails the whole scan, discarding earlier peerings |
| BgpAutNums.PutAll | src/main/java/org/rpsl4j/emitters/rpsldocument/BGPAutNum.java:78 | adding routes to a key unites them with the key's routes and leaves other keys alone; a new key goes last; an empty route set adds no key; the map stays valid |
| BgpAutNums.PeerRoutesAdd | src/main/java/org/rpsl4j/emitters/rpsldocument/BGPAutNum.java:76-79 | handling one more peering adds its resolved routes to its own peer and to no other |
| BgpAutNums.PutPeerRoutes | src/main/java/org/rpsl4j/emitters/rpsldocument/BGPAutNum.java:76-79 | after one attribute's peerings, each peer holds its earlier routes plus those the attribute resolves for its peerings, in first-insertion key order |
| BgpAutNums.RoutesUpToMembers | src/main/java/org/rpsl4j/emitters/rpsldocument/BGPAutNum.java:64-84 | a route reaches a peer exactly when some export attribute has a peering with it whose local router the route resolves for |
| BgpAutNums.RouteMapDeclared | src/main/java/org/rpsl4j/emitters/rpsldocument/BGPAutNum.java:64-84 | in a generated map, a route is under a peer exactly when a well-formed clause of some export attribute names the peer and the route resolves for the clause's router |
| BgpAutNums.DecimalRoundTrip | src/main/java/org/rpsl4j/emitters/rpsldocument/BGPAutNum.java:182 | the AS number's decimal text is all digits with no leading zero and reads back as the number |
| BgpAutNums.BgpAutNum.constructor | src/main/java/org/rpsl4j/emitters/rpsldocument/BGPAutNum.java:45-59 | allocation: object, AS number, name and collaborators set; route map empty |
| BgpAutNums.BgpAutNum.Create | src/main/java/org/rpsl4j/emitters/rpsldocument/BGPAutNum.java:45-59 | a non-aut-num object is rejected; construction succeeds exactly when the AS number parses, one as-name exists and every export scan succeeds; the result carries the parsed AS, the name and a valid route map; the error is the unparsable AS, else the as-name lookup's own error, else the scan's out-of-range error |
| BgpAutNums.BgpAutNum.GenerateRouteMaps | src/main/java/org/rpsl4j/emitters/rpsldocument/BGPAutNum.java:64-84 | succeeds exactly when every export attribute scans, and the only failure is the out-of-range look-ahead; the map then holds for each peer exactly the routes the attributes export to it, with keys in first-insertion order; on failure the map is untouched |
| BgpAutNums.BgpAutNum.GetASOfPeer | src/main/java/org/rpsl4j/emitters/rpsldocument/BGPAutNum.java:171-178 | -1 exactly when no key has the address; otherwise the AS of the first key with it, which has routes under (AS, address) |
| BgpAutNums.BgpAutNum.ToString | src/main/java/org/rpsl4j/emitters/rpsldocument/BGPAutNum.java:180-183 | the text is the name, " (AS", the AS number in decimal with no leading zero, then ")" |

## Left out

- `getTableForPeer` and `getTableForAS` (`BGPAutNum.java:152-163`) only construct a `BGPRouteTable`, and `BGPRouteTable` is not part of this model.
- `BGPRoute.resolveRoutes`, `AutNum.parse`, `ObjectType.getByName` and the object templates are not part of this model. They are parameters. `AutNum.parse` throwing is its `None`.
- `RpslObject.parse`, `writeTo`, `toString` and `getFormattedKey` do text parsing and formatting outside the indexing core.
- The copy constructor (`RpslObject.java:38-40`) ignores its first argument, so it is the list constructor. The varargs `findAttributes` (`RpslObject.java:181-183`) is the `Iterable` one.
- `CIString` case-insensitive comparison is not modelled. Strings are compared exactly.
- Java's `List.hashCode` arithmetic is a parameter. Only the non-zero memoisation around it is modelled.
- `RpslAttribute` equality is taken as structural equality of the datatype.
- Exception messages and the `System.err` diagnostics are not modelled. Only which exception is thrown is modelled.
- The AS number is a `nat`. Java's 64-bit `long` width is not modelled, because AS numbers are non-negative and far below that bound.
- Thread-safety of the unsynchronised lazy cache and hash memo is not modelled.
- BgpAutNums.BgpAutNum.GenerateRouteMaps: the order in which one attribute's peerings are visited is the `HashSet`'s and is unspecified. The model picks them in any order. So key order is stated only between keys first reached by different attributes.
