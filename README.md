# nplan in Dafny

nplan builds a network plan from reconnaissance output. Nmap XML and
scan6 reports are converted into an inventory of hosts, ports and SSH
host keys. New scans are merged into the stored inventory, and the
inventory is drawn as a draw.io diagram. This project models the three
sequential parts of that pipeline and proves what they guarantee:

- **The merge** (`core/core.go`, modules `Reconcile`, `Keyed` and `Core`).
  - The class `Core.ScanStore` holds the stored scan.
  - `ComplementWithNmap` and `ComplementWithIPv6` update its host list in place.
  - `mergeHost`, `mergePort` and `mergeKeys` become methods. Each takes the element that Go reaches through a pointer and returns its new value, and the caller writes that value back at the same position.
  - Every loop is proved against a function on values: `MergedHosts`, `MergedPorts`, `MergedKeys` and `IPv6ForMac`.
  - `MergedHosts`, `MergedPorts` and the non-nil case of `MergedKeys` are instances of one generic find-or-insert fold, `Keyed.UpsertAll`. `IPv6ForMac` is a separate recursion that keeps the last match.
  - The lemmas about the fold give the layout facts ("existing entries keep their place, new identities are appended once, in order"), lookup facts, untouched-element facts and uniqueness.
  - They also give idempotence: merging the same scan twice gives what merging it once gives. This holds for any incoming IPv4s, repeated or empty ones included, as long as no incoming host repeats a port Number and no port repeats a key Type. Two lemmas show that without that condition the second merge changes the model.
- **The diagram** (`exporter/exporter.go`, modules `Layout`, `Label`, `Grouping` and `Exporter`).
  - Host boxes are placed in columns of eight.
  - SSH keys are grouped in the process-wide `hostGroups` map, modelled as the field of the class `Exporter.FingerprintGroups`. A fingerprint box and a key icon are drawn for every group with more than one entry.
  - Unidentified hosts are stacked at the far left.
  - The HTML label of a host box is built by `getHostValue`.
  - Each loop is proved against a cell-list function (`HostCells`, `FingerprintCells`, `UnidentifiedCells`). Export as a whole yields `Diagram`.
  - Geometry lemmas show that no two boxes overlap.
- **The conversions** (`parser/parser.go`, modules `Text`, `Nmap` and `Parser`).
  - The text logic of `ParseScan6` is modelled, with its two panics as error results.
  - `convertScan`, `convertHost` and `convertPort` are modelled as loops proved against `ConvertedHost` and `ConvertPorts`.

Cell ids, which the program draws from `uuid.NewString`, are consecutive
numbers threaded through the cell-building methods. The root cells keep
their fixed names "0" and "1". Iterating the `hostGroups` map visits its
keys in an order Go leaves unspecified, so that order is a parameter
`order`, and every property holds for every order. The colour palette
comes from a random generator, so it is a parameter `palette` of the
length the program generates (one colour per group in the map).

## Model

| member | source | states |
|---|---|---|
| Keyed.FirstIndexOf | core/core.go:31-38 | the linear search finds the first element equal to the target; it fails exactly when no element matches |
| Core.FindKeyByType | core/core.go:100-107 | the result is the position of the first key with the incoming key's Type, or none when no key has that Type |
| Core.FindPortByNumber | core/core.go:62-69 | the result is the position of the first port with the given Number, or none |
| Core.ScanStore.FindHostByIPv4 | core/core.go:31-38 | the result is the position of the first stored host with an equal IPv4; the empty IPv4 matches the empty IPv4 |
| Core.MergeKeys | core/core.go:85-98 | the port's key list becomes `MergedKeys`: a nil list takes the incoming list wholesale, otherwise each incoming key overwrites the first key of its Type or is appended; no other port field changes |
| Core.MergePort | core/core.go:71-83 | Protocol, ServiceName and ServiceVersion take the incoming value iff it is non-empty; Number never changes; the keys are merged |
| Core.MergeHost | core/core.go:40-60 | IPv6, MAC and Hostname take the incoming value iff it is non-empty; IPv4, Hops and OS never change; the port Numbers become the old Numbers followed by the new distinct ones, in order |
| Core.ScanStore.ComplementWithNmap | core/core.go:19-29 | the host list becomes `MergedHosts` of the old list and the incoming hosts; the IPv4 list becomes the old one plus each unseen incoming IPv4 once, in order; unidentified hosts are unchanged |
| Core.ScanStore.ComplementHostWithIPv6 | core/core.go:5-11 | only host i changes, and only its IPv6 changes: it becomes the IPv6 of the last list entry with the host's MAC, or stays the same |
| Core.ScanStore.ComplementWithIPv6 | core/core.go:4-13 | the host count is unchanged; every host keeps every field except IPv6, which comes from the last list entry with an equal MAC (the empty MAC included) or stays the same |
| Reconcile.Coalesce | core/core.go:41-49 | the merged field is the incoming value when that is non-empty and the existing value otherwise; it is empty only when both are empty |
| Reconcile.IPv6ForMac | core/core.go:6-10 | with no entry of that MAC the IPv6 stays the same; otherwise it is the IPv6 of the last entry with that MAC |
| Reconcile.LastKeyOfType | core/core.go:89-96 | the last incoming key of a Type exists iff some incoming key has that Type, and it is an incoming key of that Type |
| Reconcile.MergesKeepKeys | core/core.go:40-98 | mergeHost keeps the IPv4, mergePort keeps the Number and a key overwrite keeps the Type |
| Reconcile.MergedHostsLayout | core/core.go:19-38 | existing hosts keep their positions and IPv4s; each incoming IPv4 not seen before, in the store or earlier in the call, appends exactly one host; the host count grows by exactly that many; every incoming IPv4 is present afterwards |
| Reconcile.MergedHostsLookup | core/core.go:19-38 | the host found by an IPv4 afterwards is the one found before (or the first incoming host with that IPv4) merged with every later incoming host of that IPv4, in order |
| Reconcile.MergedHostsUntouched | core/core.go:19-38 | a stored host that no incoming IPv4 matches, or that is not the first with its IPv4, is left exactly as it was |
| Reconcile.MergedHostsUnique | core/core.go:19-38 | if the stored IPv4s are pairwise distinct they stay so |
| Reconcile.SameIPv4Collapses | core/core.go:20-26 | two incoming hosts with the same unseen IPv4 become one appended host: the first merged with the second |
| Reconcile.MergeIntoEmpty | core/core.go:19-29 | merging pairwise-distinct IPv4s into an empty store yields exactly the incoming hosts in order |
| Reconcile.MergedHostFields | core/core.go:40-50 | IPv6, MAC and Hostname take the incoming value iff it is non-empty; IPv4, Hops and OS are never modified |
| Reconcile.MergedPortsLayout | core/core.go:51-58 | existing ports keep their positions and Numbers; each new Number is appended once, in order; every incoming Number is present afterwards |
| Reconcile.MergedPortsFresh | core/core.go:51-58 | incoming ports with pairwise-distinct Numbers that are all new are appended unchanged |
| Reconcile.MergedPortsUntouched | core/core.go:51-69 | a port that no incoming Number matches, or that is not the first with its Number, is left exactly as it was |
| Reconcile.MergedPortsLookup | core/core.go:51-58 | the port found by a Number afterwards is the old one merged with every incoming port of that Number, in order |
| Reconcile.MergedKeysSpec | core/core.go:85-107 | a nil key list takes the incoming list wholesale; otherwise existing Types keep their positions, new Types are appended once each, the key found for a Type is the last incoming key of that Type (or the old key), and keys of other Types are untouched |
| Reconcile.MergedKeysUnique | core/core.go:85-107 | if the key Types are pairwise distinct they stay so |
| Keyed.UpsertAllConcat | core/core.go:20-28 | merging two runs of incoming entries in one call is merging the first run, then the second |
| Keyed.UpsertAllAgain | core/core.go:19-38 | when every incoming identity is already stored and merging its incoming entries into the stored entry gives that entry back, the list is unchanged: nothing is appended or overwritten |
| Keyed.AccumulateTwice | core/core.go:19-38 | for a merge that absorbs a repeated run, the entry found for an identity after merging the incoming entries twice is the one found after merging them once, whether or not it was stored before |
| Keyed.UpsertAllTwice | core/core.go:19-38 | for a merge that absorbs a repeated run, find-or-insert with the same incoming list twice gives what it gives once, with repeated identities in the incoming list included |
| Keyed.UpsertAllSelf | core/core.go:19-38 | a list with distinct identities merged into itself is unchanged |
| Reconcile.CoalesceAllFrom | core/core.go:41-49 | after a run of merges a field keeps its starting value exactly when every incoming value was empty; otherwise the starting value is forgotten and the result is what the run gives from an empty field |
| Reconcile.CoalesceAllTwice | core/core.go:41-49 | coalescing a field with the same run of incoming values twice gives what coalescing once gives |
| Reconcile.PortFold | core/core.go:71-83 | a port merged with several ports in turn keeps its Number; each of Protocol, ServiceName and ServiceVersion is coalesced over the run; the keys are merged port by port |
| Reconcile.HostFold | core/core.go:40-60 | a host merged with several hosts in turn keeps IPv4, OS and Hops; IPv6, MAC and Hostname are coalesced over the run; the ports are the host's own ports with the ports of every later host merged in, in order |
| Reconcile.KeysFoldSome | core/core.go:85-98 | a present key list merged with the key lists of several ports is one find-or-insert of all their keys, in order |
| Reconcile.LastKeyOfTypeAppend | core/core.go:89-96 | the last key of a Type in two lists joined is the one in the second list when it has that Type, and otherwise the one in the first |
| Reconcile.LastKeyOfTypeDistinct | core/core.go:89-107 | in a key list with distinct Types, the last key of a Type is the key that `findKeyByType` finds |
| Reconcile.KeysSelf | core/core.go:85-98 | a key list with distinct Types merged into itself is unchanged |
| Reconcile.KeysFoldFacts | core/core.go:85-98 | after several merges the key list is nil only if it started nil and no port brought keys; otherwise it holds every merged Type, and the key found for it is the last merged key of that Type |
| Reconcile.KeysFoldTwice | core/core.go:85-98 | merging the key lists of the same ports a second time changes nothing, when each port's key Types are distinct |
| Reconcile.MergedKeysTwice | core/core.go:85-98 | merging the same key list twice gives what merging it once gives, and a list merged into itself is unchanged, when its Types are distinct |
| Reconcile.MergedPortsTwice | core/core.go:51-58 | merging the same ports twice gives what merging them once gives, repeated Numbers included, when the key Types of each incoming port are distinct |
| Reconcile.MergeTwiceIsMergeOnce | core/core.go:19-107 | merging the same scan twice gives the model that merging it once gives, for any incoming IPv4s, repeated or empty ones included, when each incoming host's port Numbers and each port's key Types are distinct |
| Reconcile.SharedPortNumberNotIdempotent | core/core.go:19-29 | a new host with two ports of the same Number but different Protocols is stored as it is; merging it again merges the second port into the first, so the first port takes the second's Protocol and the model changes |
| Reconcile.SharedKeyTypeNotIdempotent | core/core.go:85-98 | a nil key list takes two keys of the same Type wholesale; merging them again overwrites the first key with each in turn, leaving the second key twice |
| Text.SplitJoin | parser/parser.go:32-37 | joining the pieces of `strings.Split` with the separator gives the text back |
| Text.SplitPiecesFree | parser/parser.go:32-37 | no piece of `strings.Split` contains the separator |
| Text.ToUpper | parser/parser.go:40 | the result has the same length; every lower-case ASCII letter becomes the upper-case letter 32 code points below it, and every other character is kept |
| Text.ToUpperIdempotent | parser/parser.go:40 | upper-casing twice is upper-casing once |
| Text.IntToStringRoundTrip | exporter/exporter.go:217 | the decimal text `fmt` prints for an integer reads back as that integer |
| Parser.Scan6Host | parser/parser.go:37-41 | the host of a line has the text before the first " @ " as IPv6, the upper-cased second column as MAC, and nothing else set |
| Parser.ParseScan6 | parser/parser.go:28-45 | no header is the MissingHeader error; otherwise the result is Ok iff every line of the section after the first header has " @ "; an error names the first line without it; Ok holds one host per line, in order |
| Parser.TrailingNewlineIsMalformed | parser/parser.go:33-40 | a section ending with a newline has an empty last line, which lacks " @ ", so parsing fails |
| Parser.LastAddressOfType | parser/parser.go:61-69 | the value is that of the last address of the type, or "" when there is none |
| Parser.LastHostname | parser/parser.go:71-73 | the hostname is the last one, or "" when there is none |
| Parser.ConvertPort | parser/parser.go:82-89 | Number, Protocol and ServiceName are copied; ServiceVersion is Product, a space and Version, so it is never empty; no host keys are set |
| Parser.ConvertPorts | parser/parser.go:75-77 | the ports are converted one to one, in order |
| Parser.ConvertedHostFields | parser/parser.go:58-80 | IPv4, IPv6 and MAC are each the last address of that type; Hostname is the last hostname; every port is converted in order; Hops and OS stay unset |
| Parser.ConvertHost | parser/parser.go:58-80 | the loops compute `ConvertedHost`, whose fields ConvertedHostFields states |
| Parser.ConvertScan | parser/parser.go:47-56 | the hosts are converted one to one, in order, and there are no unidentified hosts |
| Parser.ConvertedPortMerge | parser/parser.go:87 | merging an nmap-converted port always overwrites the stored ServiceVersion and never changes the stored host keys |
| Layout.HostHeight | exporter/exporter.go:185-187 | a host box is at least the base height 160 tall |
| Layout.HostHeightPerPort | exporter/exporter.go:185-187 | heights differ by 20 per port; a host with 5 ports is exactly 100 taller than one with none |
| Layout.HostX | exporter/exporter.go:101-105 | the column x of host i is never negative |
| Layout.ColumnOffset | exporter/exporter.go:101-105 | a host lies at least (160 + 30) per earlier host of its column below the column top |
| Layout.ColumnOffsetGrows | exporter/exporter.go:101-105 | a later host of a column starts at least the padding below the bottom of an earlier one |
| Layout.ColumnsApart | exporter/exporter.go:102-104 | columns are 290 apart, more than the 260 width of a box |
| Layout.ColumnTop | exporter/exporter.go:102-105 | the first host of every column is at y = 0 and x = (i div 8) * 290 |
| Layout.HostsDoNotOverlap | exporter/exporter.go:83-106 | no two host rectangles overlap |
| Layout.FingerprintRectNext | exporter/exporter.go:156 | each fingerprint box is 70 + 30 below the previous one |
| Layout.UnidentifiedRectNext | exporter/exporter.go:180 | each unidentified host is 100 + 30 below the previous one |
| Layout.UnidentifiedDoNotOverlap | exporter/exporter.go:162-183 | no two unidentified-host boxes overlap |
| Layout.FingerprintBoxesDoNotOverlap | exporter/exporter.go:128-157 | no two fingerprint boxes overlap |
| Layout.FamiliesDoNotOverlap | exporter/exporter.go:15-34 | host boxes (x >= 0), fingerprint boxes (x from -440 to -90) and unidentified boxes (x from -700 to -440) never meet |
| Label.AddressValue | exporter/exporter.go:194-210 | the address section is the hostname, IPv4, IPv6 and MAC lines, each present iff the field is non-empty |
| Label.PortValue | exporter/exporter.go:217-231 | a port's entry is its ":N - service" line, a version span iff ServiceVersion is non-empty, then one key line per host key |
| Label.MiscValue | exporter/exporter.go:234-243 | the misc separator appears iff OS is non-empty or Hops is non-zero, followed by the OS and hops lines under the same conditions |
| Label.HostValue | exporter/exporter.go:189-246 | the label is the address section, a break iff there are ports, one entry per port in order, then the misc section |
| Label.PortLinesAppend | exporter/exporter.go:216-232 | the port section of a list of ports is the sections of its parts, one after the other |
| Label.PortLinesEmpty | exporter/exporter.go:216-232 | the port section is empty iff there are no ports, and otherwise starts with ':' |
| Label.LabelEmpty | exporter/exporter.go:189-246 | the label is empty exactly for a host with no hostname, addresses, ports, OS or hops |
| Label.AfterAddressesOpening | exporter/exporter.go:212-243 | after the addresses comes nothing, exactly when there are no ports, OS or hops, or else a line break |
| Label.LabelStartsWithHostname | exporter/exporter.go:195-197 | the label opens with an italic element iff the host has a hostname, and then with that hostname in italics |
| Label.NoHostnameOpening | exporter/exporter.go:195-210 | without a hostname the label does not open with an italic element |
| Grouping.KeyOccurrences | exporter/exporter.go:115-120 | the sightings of a port are exactly its keys with a non-empty fingerprint, each paired with the host |
| Grouping.PortOccurrences | exporter/exporter.go:114-121 | every sighting on a host's ports has a fingerprint and names that host |
| Grouping.Occurrences | exporter/exporter.go:113-122 | every sighting in a scan has a fingerprint and names a host of the scan |
| Grouping.Members | exporter/exporter.go:117 | the hosts collected for a key are hosts of that key's sightings |
| Grouping.GroupedAppend | exporter/exporter.go:113-122 | grouping two runs of sightings is grouping the first, then the second |
| Grouping.GroupedLookup | exporter/exporter.go:113-122 | after grouping, the group of a key is its old group followed by the hosts of its sightings, in order; a key is in the map iff it was before or was seen |
| Grouping.GroupKeysHaveFingerprints | exporter/exporter.go:116-117 | only keys with a non-empty fingerprint ever enter the map |
| Grouping.SameKeyOnTwoPorts | exporter/exporter.go:113-122 | a host offering the same key on two ports enters its group twice, so that key gets a box although no other host shares it |
| Grouping.SecondExportShowsEveryKey | exporter/exporter.go:113-122 | the map is never cleared: grouping the same scan twice gives every key seen at least two entries |
| Grouping.Emitted | exporter/exporter.go:130-136 | no more keys are drawn than are visited |
| Grouping.EmittedMembers | exporter/exporter.go:130-136 | a key is drawn iff it is visited and its group holds more than one host; with a duplicate-free order each key is drawn once |
| Grouping.OrderCoversMap | exporter/exporter.go:130 | an order that visits each map key exactly once is as long as the map, so the palette index stays in bounds |
| Grouping.ShownIffSeenTwice | exporter/exporter.go:113-136 | starting from an empty map, a key is drawn iff it is sighted at least twice in the scan |
| Exporter.KeyIconInsideInset | exporter/exporter.go:248-263 | the key icon is a child of its fingerprint box and lies inside it, within the 50-wide left inset |
| Exporter.DrawnBoxesDoNotOverlap | exporter/exporter.go:83-183 | in the drawn cells, no two host boxes overlap and no host, fingerprint or unidentified box meets a box of another family |
| Exporter.DrawnStacksDoNotOverlap | exporter/exporter.go:128-183 | in the drawn cells, no two unidentified boxes and no two fingerprint boxes overlap |
| Exporter.HostCellsAt | exporter/exporter.go:86-100 | cell i of the host cells is the 260-wide box of host i at its column position, with id firstId + i and host i's label |
| Exporter.UnidentifiedCellsAt | exporter/exporter.go:165-179 | cell k is the 260 x 100 box of unidentified host k at (-700, k * 130) |
| Exporter.NextHostPosition | exporter/exporter.go:101-105 | after every eighth host the position moves one column right and back to the top; otherwise it moves down by the host's height plus padding |
| Exporter.MakeHostCell | exporter/exporter.go:87-100 | the cell built at the current position is the host's box with its label |
| Exporter.AdvanceHostPosition | exporter/exporter.go:101-105 | the running position after host i is the position of host i + 1 |
| Exporter.AddHosts | exporter/exporter.go:83-109 | the result is the input cells followed by exactly one box per host, in host order, and one fresh id is used per host |
| Exporter.AddUnidentifiedHosts | exporter/exporter.go:162-183 | the result is the input cells followed by one fixed-size box per unidentified host, in order |
| Exporter.FingerprintCells | exporter/exporter.go:130-158 | exactly two cells are drawn per key shown |
| Exporter.FingerprintCellsAt | exporter/exporter.go:139-155 | cells 2j and 2j + 1 are the 350 x 70 box of the j-th key shown at (-440, j * 100) and its key icon in colour palette[j] |
| Exporter.FingerprintCellIgnoresColor | exporter/exporter.go:131-139 | the colour given to a key does not change its box |
| Exporter.MakeFingerprintCells | exporter/exporter.go:139-155 | the box and icon built at the current position are those of the j-th key shown |
| Exporter.FingerprintGroups.constructor | exporter/exporter.go:36 | the map starts empty |
| Exporter.FingerprintGroups.GroupHosts | exporter/exporter.go:113-122 | the map becomes the old map with every fingerprint sighting of the scan appended to its key's group |
| Exporter.FingerprintGroups.EmitBoxes | exporter/exporter.go:124-159 | the palette index stays in bounds; the cells grow by the box and icon of each key whose group holds more than one host, in visiting order, and by nothing else |
| Exporter.FingerprintGroups.AddHostsWithSameFingerprint | exporter/exporter.go:111-160 | the map takes the scan's sightings, then the boxes of the keys with more than one entry are drawn |
| Exporter.FingerprintGroups.Export | exporter/exporter.go:44-55 | the cells are the two root cells, the host boxes, the fingerprint boxes of the keys drawn and the unidentified boxes, with ids numbered consecutively |
| Exporter.CellsLength | exporter/exporter.go:44-81 | the diagram has two root cells, one cell per host, two per key shown and one per unidentified host, and the two root cells are not on the drawing layer |
| Exporter.CellsAt | exporter/exporter.go:44-183 | every cell of the diagram is a root cell or a key icon, neither on the drawing layer, or the box of the host, shown key or unidentified host that its position names |
| Exporter.DiagramBoxesApart | exporter/exporter.go:44-183 | any two different cells of the exported diagram that lie on the drawing layer are boxes that do not overlap |

## Left out

- The file reading in `ParseNmap` and `ParseScan6`, the `encoding/xml` decoding of nmap output, the CLI and JSON storage of `nplan.go`, and the XML envelope, marshalling and file writing of `Export`. These are I/O and foreign libraries. The nmap records are datatypes that feed `ConvertHost`.
- `generateColorPallete`, which relies on a colour library and randomness. The palette is a parameter of the length the program generates.
- `uuid.NewString`. Ids are modelled as consecutive numbers, so "fresh" means "not used before in this export".
- Go's map iteration order. It is the parameter `order`, which lists every key exactly once.
- Exporter.FingerprintGroups.Export: the fingerprint boxes and key icons are placed by their numeric geometry. The float32 rounding of the 23.75 icon offset is not modelled; the geometry is in exact reals.
- Text.ToUpper: upper-cases ASCII letters only, because Go's Unicode case mapping is not modelled. A MAC address is ASCII.
- Text.Split: is defined for a non-empty separator only. Every call in the source passes one.
- Integer width: Go's `int` is modelled unbounded. Coordinates and heights do not come near 64 bits.
- The layout values are Go package variables that nothing reassigns, so they are modelled as constants.
- The loops of `addHosts`, `addHostsWithSameFingerprint`, `ComplementWithIPv6` and `getHostValue` are split into helper methods (`MakeHostCell`, `AdvanceHostPosition`, `MakeFingerprintCells`, `ComplementHostWithIPv6`, `AddressValue`, `PortValue`, `MiscValue`). Each helper does exactly what the lines it replaces do.
- Pointer aliasing. Go reaches hosts, ports and keys through pointers into slices. Here each element is read, merged as a value, and written back at the same index. The stored result is the same, but Go's sharing of memory is not captured:
  - A host appended by `ComplementWithNmap` (core/core.go:25) shares its port array with the caller's incoming scan.
  - A port appended by `mergeHost` (core/core.go:56) and a key list taken wholesale (core/core.go:87) share their key arrays with the incoming port.
  - Later merges in the same call write through those arrays (`mergePort` at core/core.go:54, and the key overwrite at core/core.go:91-92), so the caller's incoming scan changes as well.
  - Those writes reach only incoming hosts and ports that the loop has already read, because each freshly parsed host and port has arrays of its own. So the model computes the same stored scan. The change to the caller's incoming scan is not modelled.

## Behaviour of the code

The model follows the code as written, including these behaviours:

- `findHostByIPv4` compares IPv4s with plain equality (core/core.go:33), so an incoming host without an IPv4 merges into the first stored host without one.
- `mergeHost` never copies OS or Hops (core/core.go:40-60).
- The fingerprint box always has the base height 70 (exporter/exporter.go:24, 151). It does not grow with the number of hosts in the group.
- `hostGroups` is keyed by the whole `HostKey` value: Type, Key, Fingerprint and Color (exporter/exporter.go:36, 117).
- A host is appended to a group once per sighting (exporter/exporter.go:113-122), so one host offering a key on two ports makes a group of two (`Grouping.SameKeyOnTwoPorts`).
- The palette has one colour per group in the map (exporter/exporter.go:266-274). Its index advances only for the groups that are drawn (exporter/exporter.go:130-158).
- `hostGroups` is a package variable that is never cleared (exporter/exporter.go:36), so a second export in the same process counts every sighting again (`Grouping.SecondExportShowsEveryKey`).
- Merging the same scan twice is not always merging it once:
  - A new host is appended with its ports as they are (core/core.go:25), even two ports with the same Number. A second merge finds the first of them for both (core/core.go:51-58), so the first port takes the second's Protocol (`Reconcile.SharedPortNumberNotIdempotent`).
  - A nil key list takes the incoming keys wholesale (core/core.go:87), even two keys of the same Type. A second merge overwrites the first of them with each in turn (core/core.go:91-92), leaving the second key twice (`Reconcile.SharedKeyTypeNotIdempotent`).
