# Parallel-coordinates flow graph: a Dafny model of its data core

The repository draws network flows as a parallel-coordinates graph in the
browser. The four-axis script (`4_param.js`) has axes for source address,
destination address, destination port and packet length. The three-axis
script (`3_param.js`) drops the packet axis. Each flow record becomes one
polyline across the axes. This project models the part of both scripts
that computes what is drawn, leaving out the drawing itself:

- `HashTable` (`hash_table.dfy`, module `HashTables`): a class whose
  `items` map and `length` counter its methods update in place.
- The address codec `ipToInt` / `intToIP` (`ipv4.dfy`, module `Ipv4`).
  JavaScript's 32-bit `<<`, `>>` and `& 255`, `parseInt`, `split(".")` and
  number-to-text are written out over exact integers rather than doubles.
  NaN is `None`.
- `sortIP` (`address_sort.dfy`, module `AddressSort`), in both of its
  variants. The three-axis one encodes, sorts and decodes. The four-axis
  one decodes through a stray index.
- The numeric descending sort `sort((a, b) => b - a)` (`sorting.dfy`,
  module `Sorting`). It is an in-place insertion sort on an `array<int>`.
- `readData`'s `indexOf` filter, which keeps the first occurrence of every
  value (`dedup.dfy`, module `Dedup`).
- The axis layout loop: `res` starts at 2.8 and drops by
  `offset = (10.5 / n) / 2` before each `setItem` (`layout.dfy`, module
  `AxisLayout`).
- `Lines`: vertex x positions, paired vertex colours, and, in the
  four-axis script, the push onto the global `lines` (`polylines.dfy`,
  `four_param.dfy`, `three_param.dfy`).
- `flowing`, `readData` and the driver of each script (`FourParam.Render`,
  `ThreeParam.Render`). Flow records are `Flows.FlowRecord` values.

Behaviour of the code worth stating:

- The codec is signed. `ipToInt` yields a signed 32-bit number, negative
  exactly when the first octet is 128 or more. It is not an unsigned 32-bit
  value, so `sortIP` orders 128.0.0.0 and above below 127.255.255.255.
- Both scripts use the span 10.5 in the offset, and the last value of every
  axis lands at -2.45.
- Vertex colours are not uniform per polyline. The colour loop draws a
  fresh colour for each pair of vertices. The three-axis `Lines` writes
  four colours for three vertices.
- An empty column raises no error. The offset becomes Infinity and is never
  used, and nothing is stored.
- The drivers call `sortIP` on both address lists and drop its result. The
  address axes therefore keep first-occurrence order. The port and packet
  lists are sorted descending in place.

## Model

| member | source | states |
|---|---|---|
| HashTables.HashTable.constructor | 4_param.js:26-34 | the table holds exactly the entries of the initial object, and `length` counts them |
| HashTables.HashTable.SetItem | 4_param.js:36-45 | the key maps to the new value and every other entry is kept; an existing key returns its old value and leaves `length` alone; a new key returns undefined and raises `length` by one; `length` stays the entry count |
| HashTables.HashTable.GetItem | 4_param.js:47-49 | defined exactly for stored keys, and then it is the stored value |
| HashTables.HashTable.HasItem | 4_param.js:51-53 | true exactly when the key is stored |
| HashTables.HashTable.RemoveItem | 4_param.js:55-64 | a present key is deleted, its value returned, and `length` lowered by one; an absent key returns undefined and changes nothing; afterwards the key is absent |
| HashTables.HashTable.Keys | 4_param.js:66-74 | every stored key exactly once, `length` of them |
| HashTables.HashTable.Values | 4_param.js:76-84 | one value per stored key, listed along some enumeration of the keys, `length` of them |
| HashTables.HashTable.Clear | 4_param.js:94-97 | the table is empty and `length` is 0 |
| Ipv4.IpToInt | 4_param.js:229-238 | NaN exactly when the fourth part of `split(".")` is missing or does not start with a digit; otherwise a number |
| Ipv4.IntToIp | 4_param.js:246-253 | always canonical dotted-quad text: four decimal octets below 256, no leading zeros, joined by dots |
| Ipv4.ShiftLeft | 4_param.js:232-234 | `x << n` is a signed 32-bit number, and equals `x * 2^n` while that product of a non-negative `x` stays in range |
| Ipv4.ShiftRight | 4_param.js:247-250 | `x >> n` is the floor of the signed 32-bit value of `x` divided by `2^n` |
| Ipv4.LowByte | 4_param.js:247-250 | `x & 255` is below 256 and congruent to the signed 32-bit value of `x` modulo 256 |
| Ipv4.DecimalText | 4_param.js:252 | the number-to-text conversion gives at least one digit, only digits, and no leading zero |
| Ipv4.DigitsOfDecimal | 4_param.js:252 | reading the decimal text of a number back gives that number |
| Ipv4.ToInt32 | 4_param.js:232-234 | the signed 32-bit wrap the shift operators apply: in range, congruent modulo 2^32, and the identity on values already in range |
| Ipv4.ParseInt | 4_param.js:232-235 | a number exactly when the text starts with a digit |
| Ipv4.Split | 4_param.js:230 | at least one part, and no part contains a dot |
| Ipv4.JoinSplit | 4_param.js:230 | joining the parts of `split(".")` with dots gives back the text |
| Ipv4.ParseDecimal | 4_param.js:232-235 | `parseInt` of the decimal text of a number is that number |
| Ipv4.ShiftedOctets | 4_param.js:231-235 | the sum of the shifted octets is their big-endian packing read as signed 32-bit, negative exactly when the first octet is 128 or more |
| Ipv4.EncodeDotted | 4_param.js:229-238 | `ipToInt` of dotted octets is their signed packing |
| Ipv4.BytesOfPacked | 4_param.js:247-250 | `>> 24`, `>> 16`, `>> 8` and `& 255` of a signed packing give back its four octets |
| Ipv4.DecodePacked | 4_param.js:246-253 | `intToIP` of a signed packing is the dotted text of its octets |
| Ipv4.QuadOctets | 4_param.js:229-238 | canonical dotted-quad text is the text of its octets, and `ipToInt` gives their signed packing, negative exactly when the first octet is 128 or more |
| Ipv4.DottedQuadRoundTrip | 4_param.js:229-253 | `intToIP(ipToInt(s)) == s` for canonical dotted-quad text, and the code is a signed 32-bit number |
| Ipv4.SignedOctets | 4_param.js:246-253 | every signed 32-bit number is the signed packing of four octets |
| Ipv4.NumberRoundTrip | 4_param.js:229-253 | `ipToInt(intToIP(v)) == v` for every signed 32-bit `v`, and `intToIP(v)` is canonical dotted-quad text |
| Ipv4.IntToIpInjective | 4_param.js:246-253 | two distinct signed 32-bit numbers give distinct address texts |
| Ipv4.CodeInjective | 4_param.js:229-238 | two canonical addresses with the same code are the same address |
| Dedup.IndexOf | 4_param.js:182 | -1 exactly when the value is absent; otherwise the first index that holds it |
| Dedup.FilterFromMembers | 4_param.js:181-183 | from index `k` on, the filter keeps exactly the values whose first occurrence lies at or after `k` |
| Dedup.FilterFromOrder | 4_param.js:181-183 | the kept values appear in increasing order of their first occurrence |
| Dedup.FirstOccurrences | 4_param.js:181-193 | every kept value is in the column, and every value of the column is kept |
| Dedup.FirstOccurrencesSpec | 4_param.js:181-193 | the filtered column has no duplicates, holds exactly the column's values, and lists them in order of first occurrence |
| Dedup.DedupUnique | 4_param.js:181-193 | any list with those three properties is the filtered column, so the filter's result is fully determined |
| Dedup.FirstOccurrencesOfDistinct | 4_param.js:181-183 | a column without duplicates passes the filter unchanged |
| Dedup.DistinctPermutation | 4_param.js:409 | a reordering of a list without duplicates has none either |
| Sorting.SortDescending | 4_param.js:409 | the array ends sorted from largest to smallest and is a permutation of its old contents |
| Sorting.SortList | 4_param.js:409 | the sorted copy is descending and a permutation of the list |
| Sorting.SortedUnique | 4_param.js:409 | two descending lists with the same elements are equal, so the sort's result is unique |
| AddressSort.Code | 4_param.js:263-265 | the code of malformed text (NaN) is 0; the code of canonical dotted-quad text is a signed 32-bit number that `intToIP` turns back into the text |
| AddressSort.SortedCodes | 4_param.js:263-266 | the codes of the list, one per address, sorted from largest to smallest, a permutation of the encoded list |
| AddressSort.SingleCode | 4_param.js:266 | sorting a single code leaves it alone |
| AddressSort.MapSeqPermutation | 3_param.js:242-249 | mapping the same function over two reorderings of a list gives reorderings of each other |
| AddressSort.DecodeSortedCodes | 3_param.js:246-249 | decoding any reordering of the codes of canonical addresses gives canonical addresses whose codes are that reordering, and a permutation of the list |
| AddressSort.EncodeAll | 3_param.js:243-245 | slot `i` of the new array holds the code of `list[i]` |
| AddressSort.DecodeAll | 3_param.js:247-249 | item `j` of the result is `intToIP` of code `j` |
| AddressSort.SortIp | 3_param.js:241-251 | same length; for canonical addresses, a permutation of the list ordered from the largest signed code to the smallest, without duplicates when the list had none |
| AddressSort.StoreSlot | 4_param.js:268 | assigning `res[k]` sets slot `k`, keeps every other slot, and grows a short array to `k + 1` |
| AddressSort.ZeroAddress | 4_param.js:246-253 | `intToIP(0)` is "0.0.0.0" |
| AddressSort.DecodeAtStray | 4_param.js:267-269 | every slot except the stray one keeps its sorted code undecoded; the array grows to the stray index when it lies past the end, leaving holes between; with one code the stray slot holds its decoded code (the stray code, or code 0 past the end), with two or more it holds the decoding of 0 |
| AddressSort.SortIpAsWritten | 4_param.js:261-271 | the codes are sorted from largest to smallest and are a permutation of the list's codes; every slot except the stray one holds its sorted code undecoded; holes between the end of the list and a stray index past it; a single address at stray index 0 comes back decoded; otherwise, and always with two or more addresses, the stray slot holds `intToIP(0)`, which is "0.0.0.0" |
| AddressSort.StrayAddressLost | 4_param.js:267-269 | when the stray slot ends as the decoding of 0 and the other slots keep their codes, the address whose code was sorted into the stray slot appears nowhere in the result, unless that code is 0 |
| AddressAxes.StrayDecodeOfTwo | 4_param.js:261-271 | for two addresses and stray index 1, the result is the larger code as an undecoded number followed by "0.0.0.0" |
| AddressAxes.TwoCodesSorted | 4_param.js:266 | two distinct codes sorted descending put the larger first |
| AxisLayout.Offset | 4_param.js:373 | the step between neighbouring values is positive |
| AxisLayout.AxisAt | 4_param.js:382-385 | a height exactly for the values on the axis |
| AxisLayout.AxisCoordinates | 4_param.js:373-380 | one y per value; the i-th is `2.8 - (i + 1) * offset` |
| AxisLayout.LayOutAxis | 4_param.js:372-385 | a fresh valid table keyed by exactly the list's values; for a list without duplicates it holds one entry per value, each value at the height of its index |
| AxisLayout.FirstCoordinate | 4_param.js:373-378 | the first value sits at `2.8 - 5.25 / n` |
| AxisLayout.LastCoordinate | 4_param.js:373-378 | the last value sits at -2.45 for every n |
| AxisLayout.Spacing | 4_param.js:373-378 | neighbouring values are exactly one offset apart |
| AxisLayout.StrictlyDecreasing | 4_param.js:376-380 | a later index is placed strictly lower |
| AxisLayout.InsideBorder | 4_param.js:339-342 | every value lies between -2.45 and the first coordinate, strictly inside the border's y range (-2.5, 2.8) |
| AxisLayout.AxisAtOrder | 4_param.js:382-385 | on a laid-out axis every value lies inside the border, an earlier value lies higher, and two values share a height exactly when they are equal |
| Polylines.PairColors | 4_param.js:127-130 | twice as many colours as draws; colour k is draw k/2, so each even colour equals the next |
| Flows.SourceColumn | 4_param.js:170 | the column of source addresses, one per record, in record order |
| Flows.DestinationColumn | 4_param.js:171 | the column of destination addresses, one per record, in record order |
| Flows.PortColumn | 4_param.js:172 | the column of destination ports, one per record, in record order |
| Flows.PacketColumn | 4_param.js:173 | the column of packet lengths, one per record, in record order |
| FourParam.Flowing | 4_param.js:148-150 | the tuple holds the source, destination, port and packet length it was given |
| FourParam.Globals.constructor | 4_param.js:8 | the global list of lines starts empty |
| FourParam.ReadData | 4_param.js:160-196 | one `flowing` tuple per record, in record order; each of the four columns reduced to its values in order of first occurrence, without duplicates |
| FourParam.Lines | 4_param.js:112-136 | vertices at x = -4, -1.5, 1.5, 4 at the heights the four tables hold for the flow's values; colours paired; the line is appended to the global `lines` |
| FourParam.DrawFlows | 4_param.js:449-456 | one polyline per record, each drawing that record at its axes' heights with its own two colours, all appended to the global `lines` in order |
| FourParam.AddressAxis | 4_param.js:367-385 | after the dropped `sortIP` call, every address sits at the height of its first-occurrence index and the table holds one entry per address |
| FourParam.CountAxis | 4_param.js:407-424 | the list sorted descending and permuted, and every value at the height of its index in the sorted list |
| FourParam.Render | 4_param.js:364-456 | address axes in first-occurrence order; port and packet axes sorted descending, each a permutation of the distinct values; one polyline per record through the heights of its values; every line appended to `lines` |
| ThreeParam.Flowing | 3_param.js:134-136 | the tuple holds the source, destination and port it was given |
| ThreeParam.ReadData | 3_param.js:146-176 | one `flowing` tuple per record, in record order; each of the three columns reduced to its values in order of first occurrence, without duplicates |
| ThreeParam.Lines | 3_param.js:104-123 | vertices at x = -4, 0, 4 at the heights the three tables hold for the flow's values; four paired colours |
| ThreeParam.DrawFlows | 3_param.js:368-373 | one polyline per record, each drawing that record at its axes' heights with its own two colours |
| ThreeParam.AddressAxis | 3_param.js:306-323 | after the dropped `sortIP` call, every address sits at the height of its first-occurrence index |
| ThreeParam.PortAxis | 3_param.js:345-362 | the ports sorted descending and permuted, and every port at the height of its index in the sorted list |
| ThreeParam.Render | 3_param.js:303-373 | address axes in first-occurrence order; the port axis sorted descending and a permutation of the distinct ports; one polyline per record through the heights of its values |
| AddressAxes.HigherAddressHigher | 4_param.js:367-385 | on an axis laid out from a list sorted by code, a larger address is drawn higher |
| AddressAxes.SortedAddressAxis | 4_param.js:367-385 | the intended address axis: the list `sortIP` returns, laid out so that of any two canonical addresses the larger code is drawn higher |
| AddressAxes.UnsortedAddressAxis | 4_param.js:369 | as written: when the first record's source has the smaller code, it is still drawn above the second record's |
| AddressAxes.TenDotCodes | 4_param.js:229-238 | the codes of 10.0.0.1 and 10.0.0.2 are 0x0A000001 and 0x0A000002 |
| AddressAxes.TwoSourcesInverted | 4_param.js:369 | with sources 10.0.0.1 and then 10.0.0.2, the driver draws 10.0.0.1 at 0.175 and 10.0.0.2 at -2.45 |

## Left out

- The THREE.js scene, camera, renderer, materials, `LineSegments`, the line clone and the z coordinate (always 0) are outside the computation being modelled.
- Text labels (`textRange` and the label loops) and mouse picking (`onMouseClick`, `transformX`, `transformY`, `boldLines`) are display and input handling.
- `Math.random` is not modelled. `Lines` and the drivers take the colours it would produce as a `draws` parameter.
- Coordinates are exact reals, not IEEE doubles, so rounding in `10.5 / n` and in the repeated subtraction is not captured.
- The sample flow literal that each script defines is not part of the model. The drivers take any list of records.
- `each` (4_param.js:86-92) runs an arbitrary callback and is not modelled.
- HashTables.HashTable: keys are modelled as values. JavaScript stores them as property-name strings, so the port 80 and the text "80" would collide there.
- HashTables.HashTable.Keys: the order of JavaScript's property enumeration is not modelled. The keys come in some order.
- HashTables.HashTable.Values: the order is not modelled, as for `Keys`.
- `removeItem` assigns the undeclared global `previous`, and `sortIP` assigns the global `res`. These leaked globals are not kept.
- Ipv4.ParseInt: leading whitespace and signs that `parseInt` would accept are not modelled. Only decimal digits are read.
- Ipv4.ParseInt / Ipv4.IpToInt: values are exact integers; JavaScript's `parseInt` and `+=` work in doubles (rounding above 2^53, Infinity for very long digit runs, which the shifts turn into 0). This only changes the code of malformed text with oversized parts, such as "9007199254740993.0.0.0".
- Ipv4.DecimalText: only the text of octets (0 to 255) is modelled, which is all that 4_param.js:252 prints; JavaScript prints 1e21 and above in exponent form.
- AddressSort.Code: NaN from malformed text is replaced by 0 before sorting. JavaScript's sort with a NaN comparator result is implementation-defined.
- AddressSort.SortIp: order and permutation are only promised for canonical dotted-quad addresses. Non-canonical numeric text such as "010.0.0.1" comes back as "10.0.0.1", so the result is not a permutation of such a list.
- AxisLayout.AxisCoordinates: for an empty list the source's offset is Infinity. The model uses 0 because no value is stored either way.
- The y of a value missing from a table is `undefined` in the source and `None` here. What THREE.js draws for it is not modelled.

## Findings

| source | as written | input that shows it | evidently intended | confidence | as-written member | corrected member |
|---|---|---|---|---|---|---|
| 4_param.js:267-269 | the decode loop of `sortIP` writes `res[i] = intToIP(res[i])`, where `i` is the global that `readData`'s `for (i in flows)` leaves at the last record index, instead of `res[j]` | two records with sources 10.0.0.1 and 10.0.0.2: `i` is 1, so slot 1 is decoded twice, and the result is the number 167772162 followed by "0.0.0.0" | every sorted code decoded in its own slot, as 3_param.js:247-249 does | not executed; the global `i` is read from the source, not observed | AddressSort.SortIpAsWritten, AddressAxes.StrayDecodeOfTwo | AddressSort.SortIp |
| 4_param.js:369 | `sortIP(srcIPList)` is called and its result dropped (also 4_param.js:389, 3_param.js:308 and 3_param.js:327), so the address axis keeps first-occurrence order | records with sources 10.0.0.1 and then 10.0.0.2: 10.0.0.1 is drawn at 0.175, above 10.0.0.2 at -2.45 | the axis laid out from the sorted list, from the largest signed code at the top to the smallest, as the driver's comment says | not executed | AddressAxes.TwoSourcesInverted | AddressAxes.SortedAddressAxis |
