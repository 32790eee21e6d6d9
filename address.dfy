/**
 * How a geocoded place fills the address fields of the form: the street taken from the
 * formatted address, and the city, neighbourhood and postal code looked up among the
 * place's address components.
 */
module Address {
  import opened Wrappers

  /** An address component of a geocoding result: its `long_name` and its `types`. */
  datatype Component = Component(longName: string, types: seq<string>)

  /** A geocoded place; an absent `formatted_address` is the empty string. */
  datatype Place = Place(formattedAddress: string, components: seq<Component>)

  /** The address fields of the form that a place may fill. */
  datatype AddressFields = AddressFields(address: string, city: string, neighborhood: string, postalCode: string)

  /** `types.every((t) => c.types.includes(t))`. */
  predicate HasAllTypes(c: Component, types: seq<string>)
  {
    forall t :: t in types ==> t in c.types
  }

  /** `components.find(...)?.long_name`: the name of the first component carrying every requested type. */
  function GetComponent(components: seq<Component>, types: seq<string>): (r: Option<string>)
    ensures r.Some? ==> exists c :: c in components && HasAllTypes(c, types) && r.value == c.longName
  {
    if components == [] then None
    else if HasAllTypes(components[0], types) then Some(components[0].longName)
    else GetComponent(components[1..], types)
  }

  /** The lookup answers with the first matching component, and with nothing when none matches. */
  lemma {:induction false} GetComponentFirst(components: seq<Component>, types: seq<string>, i: nat)
    requires i < |components| && HasAllTypes(components[i], types)
    requires forall j :: 0 <= j < i ==> !HasAllTypes(components[j], types)
    ensures GetComponent(components, types) == Some(components[i].longName)
  {
    if i > 0 {
      assert !HasAllTypes(components[0], types);
      GetComponentFirst(components[1..], types, i - 1);
    }
  }

  lemma {:induction false} GetComponentNone(components: seq<Component>, types: seq<string>)
    ensures GetComponent(components, types).None? <==>
              forall j :: 0 <= j < |components| ==> !HasAllTypes(components[j], types)
  {
    if components != [] {
      GetComponentNone(components[1..], types);
      if !HasAllTypes(components[0], types) {
        forall j | 0 < j < |components|
          ensures components[1..][j - 1] == components[j]
        {
        }
      }
    }
  }

  /** A value JavaScript treats as true: present and not the empty string. */
  predicate Truthy(v: Option<string>)
  {
    v.Some? && v.value != ""
  }

  /** `a || b` on optional strings. */
  function Or(a: Option<string>, b: Option<string>): (r: Option<string>)
    ensures Truthy(r) <==> Truthy(a) || Truthy(b)
  {
    if Truthy(a) then a else b
  }

  /** The city: the locality, else the second administrative level, else the first. */
  function CityOf(components: seq<Component>): (r: Option<string>)
    ensures Truthy(GetComponent(components, ["locality"])) ==> r == GetComponent(components, ["locality"])
    ensures !Truthy(GetComponent(components, ["locality"])) && Truthy(GetComponent(components, ["administrative_area_level_2"])) ==>
              r == GetComponent(components, ["administrative_area_level_2"])
    ensures !Truthy(GetComponent(components, ["locality"])) && !Truthy(GetComponent(components, ["administrative_area_level_2"])) ==>
              r == GetComponent(components, ["administrative_area_level_1"])
    ensures Truthy(r) <==>
              Truthy(GetComponent(components, ["locality"])) || Truthy(GetComponent(components, ["administrative_area_level_2"]))
              || Truthy(GetComponent(components, ["administrative_area_level_1"]))
  {
    Or(Or(GetComponent(components, ["locality"]), GetComponent(components, ["administrative_area_level_2"])),
       GetComponent(components, ["administrative_area_level_1"]))
  }

  /** The neighbourhood: the sublocality, else the neighbourhood, else the first sublocality level. */
  function NeighborhoodOf(components: seq<Component>): (r: Option<string>)
    ensures Truthy(GetComponent(components, ["sublocality"])) ==> r == GetComponent(components, ["sublocality"])
    ensures !Truthy(GetComponent(components, ["sublocality"])) && Truthy(GetComponent(components, ["neighborhood"])) ==>
              r == GetComponent(components, ["neighborhood"])
    ensures !Truthy(GetComponent(components, ["sublocality"])) && !Truthy(GetComponent(components, ["neighborhood"])) ==>
              r == GetComponent(components, ["sublocality_level_1"])
    ensures Truthy(r) <==>
              Truthy(GetComponent(components, ["sublocality"])) || Truthy(GetComponent(components, ["neighborhood"]))
              || Truthy(GetComponent(components, ["sublocality_level_1"]))
  {
    Or(Or(GetComponent(components, ["sublocality"]), GetComponent(components, ["neighborhood"])),
       GetComponent(components, ["sublocality_level_1"]))
  }

  /** The first of three candidates that JavaScript treats as true wins, and the chain is empty only when all three are. */
  lemma FallbackPriority(a: Option<string>, b: Option<string>, c: Option<string>)
    ensures Truthy(a) ==> Or(Or(a, b), c) == a
    ensures !Truthy(a) && Truthy(b) ==> Or(Or(a, b), c) == b
    ensures !Truthy(a) && !Truthy(b) ==> Or(Or(a, b), c) == c
    ensures Truthy(Or(Or(a, b), c)) <==> Truthy(a) || Truthy(b) || Truthy(c)
  {
  }

  /** A locality, when a component carries that type with a non-empty name, decides the city. */
  lemma CityFromLocality(components: seq<Component>, i: nat)
    requires i < |components| && "locality" in components[i].types && components[i].longName != ""
    requires forall j :: 0 <= j < i ==> "locality" !in components[j].types
    ensures CityOf(components) == Some(components[i].longName)
  {
    GetComponentFirst(components, ["locality"], i);
  }

  /** `formatted.split(',')[0]`: the text before the first comma, or all of it. */
  function StreetPart(s: string): (r: string)
    ensures |r| <= |s| && ',' !in r
  {
    if s == [] || s[0] == ',' then [] else [s[0]] + StreetPart(s[1..])
  }

  /** The street part is the longest prefix without a comma. */
  lemma {:induction false} StreetPartMeaning(s: string)
    ensures |StreetPart(s)| <= |s| && StreetPart(s) == s[..|StreetPart(s)|]
    ensures ',' !in StreetPart(s)
    ensures |StreetPart(s)| == |s| || s[|StreetPart(s)|] == ','
  {
    if s != [] && s[0] != ',' {
      StreetPartMeaning(s[1..]);
    }
  }

  /** Taking the street part again changes nothing. */
  lemma StreetPartIdempotent(s: string)
    ensures StreetPart(StreetPart(s)) == StreetPart(s)
  {
    StreetPartMeaning(s);
    StreetPartOfCommaFree(StreetPart(s));
  }

  lemma {:induction false} StreetPartOfCommaFree(s: string)
    requires ',' !in s
    ensures StreetPart(s) == s
  {
    if s != [] {
      StreetPartOfCommaFree(s[1..]);
      assert [s[0]] + s[1..] == s;
    }
  }

  /**
   * `if (v) setValue(field, v)`: a field changes only when the value is one JavaScript treats
   * as true, so a field with content is never emptied, and an empty one is filled exactly
   * when there is such a value.
   */
  function SetIfTruthy(current: string, v: Option<string>): (r: string)
    ensures Truthy(v) ==> r == v.value
    ensures r != current ==> Truthy(v)
    ensures r != "" <==> current != "" || Truthy(v)
  {
    if Truthy(v) then v.value else current
  }

  /**
   * The field updates a place makes: the street when the place is formatted, the rest when
   * found. A field keeps what the user typed unless the place has a value for it, and the
   * street never holds a comma.
   */
  function FillFromPlace(fields: AddressFields, place: Place): (r: AddressFields)
    ensures place.formattedAddress == "" ==> r.address == fields.address
    ensures place.formattedAddress != "" ==> r.address == StreetPart(place.formattedAddress) && ',' !in r.address
    ensures Truthy(CityOf(place.components)) ==> r.city == CityOf(place.components).value
    ensures !Truthy(CityOf(place.components)) ==> r.city == fields.city
    ensures Truthy(NeighborhoodOf(place.components)) ==> r.neighborhood == NeighborhoodOf(place.components).value
    ensures !Truthy(NeighborhoodOf(place.components)) ==> r.neighborhood == fields.neighborhood
    ensures Truthy(GetComponent(place.components, ["postal_code"])) ==>
              r.postalCode == GetComponent(place.components, ["postal_code"]).value
    ensures !Truthy(GetComponent(place.components, ["postal_code"])) ==> r.postalCode == fields.postalCode
  {
    AddressFields(
      if place.formattedAddress != "" then StreetPart(place.formattedAddress) else fields.address,
      SetIfTruthy(fields.city, CityOf(place.components)),
      SetIfTruthy(fields.neighborhood, NeighborhoodOf(place.components)),
      SetIfTruthy(fields.postalCode, GetComponent(place.components, ["postal_code"])))
  }

  /** Filling from the same place twice is filling once. */
  lemma FillIdempotent(fields: AddressFields, place: Place)
    ensures FillFromPlace(FillFromPlace(fields, place), place) == FillFromPlace(fields, place)
  {
    StreetPartIdempotent(place.formattedAddress);
  }

  /** The street part stops at a comma that follows a comma-free prefix. */
  lemma {:induction false} StreetPartAt(p: string, rest: string)
    requires ',' !in p && rest != [] && rest[0] == ','
    ensures StreetPart(p + rest) == p
  {
    if p == [] {
      assert p + rest == rest;
    } else {
      assert (p + rest)[0] == p[0] && (p + rest)[1..] == p[1..] + rest;
      StreetPartAt(p[1..], rest);
      assert [p[0]] + p[1..] == p;
    }
  }
}
