// The country record and the normalising `map` applied to the payload of
// the countries endpoint (src/App.tsx).

module Countries {

  datatype Option<+T> = None | Some(value: T)

  /** One row of the table: the `Country` type of the application. */
  datatype Country = Country(name: string, region: string, area: nat)

  /** A record as the remote endpoint delivers it; its `area` may be absent. */
  datatype RawCountry = RawCountry(name: string, region: string, area: Option<nat>)

  /** JavaScript truthiness of a possibly absent area: absent and 0 are falsy. */
  predicate Truthy(area: Option<nat>)
  {
    area.Some? && area.value != 0
  }

  /** Models `{ name, region, area: country.area || 0 }`. */
  function Normalize(raw: RawCountry): (c: Country)
    ensures c.name == raw.name && c.region == raw.region
    ensures c.area == 0 <==> raw.area == None || raw.area == Some(0)
    ensures raw.area.Some? ==> c.area == raw.area.value
  {
    Country(raw.name, raw.region, if Truthy(raw.area) then raw.area.value else 0)
  }

  /** Models `data.map(...)`: one canonical record per raw record, in order. */
  function NormalizeAll(data: seq<RawCountry>): (cs: seq<Country>)
    ensures |cs| == |data|
    ensures forall i :: 0 <= i < |data| ==> cs[i] == Normalize(data[i])
  {
    if data == [] then [] else [Normalize(data[0])] + NormalizeAll(data[1..])
  }
}
