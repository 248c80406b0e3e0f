/**
  What loading needs to know of item types: items are made again from the type that was stored, and some types are
  made as items of another type.
 */
module ItemTypes {

  // Whether the items of a type are containers, and whether they are made by a class of their own
  datatype ItemType = ItemType(container: bool, special: bool)
  type Types = map<int, ItemType>

  function Alias(id: int): int
  {
    if 2210 <= id <= 2212 then id - 3
    else if id == 2215 || id == 2216 then id - 2
    else if 2202 <= id <= 2206 then id - 37
    else if id == 2640 then 6132
    else if id == 6301 then 6300
    else if id == 18528 then 18408
    else id
  }

  // The types that are made as others, with what they are made as: for most of them a ring that is worn and the ring
  // that is not
  const MADE_AS := map[2202 := 2165, 2203 := 2166, 2204 := 2167, 2205 := 2168, 2206 := 2169, 2210 := 2207, 2211 := 2208,
    2212 := 2209, 2215 := 2213, 2216 := 2214, 2640 := 6132, 6301 := 6300, 18528 := 18408]

  lemma {:induction false} AliasExactly(id: int)
    ensures Alias(id) == if id in MADE_AS then MADE_AS[id] else id
    ensures Alias(Alias(id)) == Alias(id)
  {
  }

  // The type of the item that is made for a known type
  function Created(types: Types, id: int): int
  {
    if id in types && !types[id].special then Alias(id) else id
  }

  function IsContainer(types: Types, id: int): bool
  {
    id in types && types[id].container
  }
}
