# Campus power-bank finder: station ranking and rental session

A Dafny model of the logic underneath `script.js`, the page script of a
campus power-bank finder. The page shows charging stations on a map, ranks
them by distance from the user, and lets the user scan a power bank's QR
code to rent it and later return it. Two layouts share the script. The
mobile one has drawers (find, scan, status) behind a bottom nav bar. The
desktop one has station cards and a scan modal.

The model has two parts.

- **Station ranking** (`stations.dfy`, `ranking.dfy`, `labels.dfy`, `board.dfy`).
  The four-entry station directory is an `array` whose entries get their
  `distance` overwritten in place. The sorted copy is specified as the
  stable ascending sort, and `SortCharacterized` shows that every stable
  sort gives the same list. The mobile list takes one item per ranked entry,
  and only the first item is labelled nearest. Distances below 1000 m are
  shown in meters and all others in km. The desktop cards are written by
  index, each at the slot `findIndex` gives for the station's name. The
  distance function `calculateDistance` is a parameter (`DistanceFn`).
- **Rental session** (`session.dfy`): the class `RentalSession` holds
  `currentConnection`, the two scanner flags, whether each scanner object
  exists, the active drawer and nav item, and whether the desktop modal is
  open. Browser calls are inputs to its methods:
  - `JSON.parse` is an `Option<Json>`, `None` when it throws.
  - `confirm` is a `bool`.
  - the outcome of a scanner's `stop()` promise is a `bool`.

## Behaviours of the code worth knowing

The model keeps these behaviours of the code, which a reader might not
expect:

- A camera that fails to start does not leave the scanner idle: the code
  sets `isScanning`/`isScanningDesktop` to true whatever the camera does
  (script.js:200-205, 428-433).
- Any value `JSON.parse` returns except `null` is stored as the connection,
  not only `{station, id}` objects: a number, a string or an array becomes
  the connection too (script.js:222-223). `null` parses, but reading its
  `station` then throws inside the same `try`, so the fallback connection
  is stored (script.js:226, 236-237).
- Stopping a scanner does not always make it idle: the flag clears only
  when `stop()` resolves (script.js:211-212, 439-440).
- The desktop decode callback stops the scanner twice, once directly and
  once through `closeDesktopScanModal` (script.js:421-422, 405).

## Model

| member | source | states |
|---|---|---|
| `Stations.Directory` | script.js:14-19 | the fixed directory has four stations with distinct names, the School Canteen first, none of them located yet |
| `Stations.WithDistances` | script.js:106-108 | after locating, every entry has a distance, measured from the user; names, coordinates and order are unchanged, and unique names stay unique |
| `Stations.AssignDistances` | script.js:106-108 | the in-place loop leaves the array equal to `WithDistances` of its old contents |
| `Ranking.SortByDistance` | script.js:110 | the ranked copy has as many entries as the directory |
| `Ranking.SortPermutes` | script.js:110 | the ranked list is a permutation of the directory |
| `Ranking.SortSorted` | script.js:110 | the ranked list is non-decreasing by distance |
| `Ranking.SortStable` | script.js:110 | among stations at equal distance, the ranked list keeps directory order |
| `Ranking.SortedTiesDetermine` | script.js:110 | two lists that are sorted and agree on the order of every group of ties are equal |
| `Ranking.SortCharacterized` | script.js:110 | any stable ascending sort of the directory equals `SortByDistance` |
| `Ranking.FirstIsNearest` | script.js:110 | the entry ranked first is no farther than any directory entry |
| `Ranking.StrictlyNearestFirst` | script.js:110 | a station strictly nearer than all others is ranked first |
| `Ranking.CanteenRankedFirst` | script.js:14-19 | a user at the canteen's coordinates, with zero distance there and positive distance elsewhere, sees the canteen ranked first at 0 m |
| `Labels.FormatDistance` | script.js:156-158 | meters exactly when the distance is below 1000, so 1000 itself is shown in km; km amounts are at least 1; reading the text back in meters gives the distance |
| `Labels.StationItems` | script.js:155-168 | one list item per ranked entry, in rank order, with its name and distance; the distance is in meters exactly when it is below 1000, otherwise in kilometers; an item is labelled nearest exactly when it is the first one |
| `Labels.OnlyFirstItemNearest` | script.js:168 | no two items are labelled nearest, and some item is labelled nearest exactly when the list is not empty |
| `Labels.FindIndex` | script.js:387 | the first directory slot with the given name, or -1 when no slot has it |
| `Labels.DesktopCards` | script.js:382-391 | the desktop loop leaves the card list at its original length |
| `Labels.PermutationKeepsNamesUnique` | script.js:387 | a ranking of a directory with unique names has unique names |
| `Labels.RankedMapsBack` | script.js:387-388 | with unique names, every ranked station is found by name, at the directory slot that holds that same station |
| `Labels.EachCardWrittenOnce` | script.js:387-390 | with unique names, every directory slot is found for some ranked station and no two ranked stations are found at the same slot, so each card is written exactly once |
| `Labels.CardAfter` | script.js:382-391 | after k iterations, a card holds its own station's distance if that station is among the first k ranked entries, and its old text otherwise |
| `Labels.DesktopCardsLabelled` | script.js:382-391 | after the loop, card j shows directory station j's distance and is marked nearest exactly when that station is ranked first |
| `Labels.ExactlyOneNearestCard` | script.js:390 | for a non-empty directory, exactly one card carries the nearest mark |
| `Board.StationBoard.constructor` | script.js:14-19 | the board starts with the directory, untouched cards and an empty mobile list |
| `Board.StationBoard.Locate` | script.js:105-110 | measures the directory in place and returns `SortByDistance` of the measured directory |
| `Board.StationBoard.DisplayStationList` | script.js:151-179 | the mobile list becomes exactly `StationItems` of the ranked list |
| `Board.StationBoard.UpdateDesktopStationList` | script.js:379-392 | the cards become `DesktopCards` of the ranking; for a ranking of the directory, the ranking has one entry per card, each card shows its own station's distance, and only the nearest station's card is marked |
| `Board.StationBoard.LocateUserMobile` | script.js:98-148 | on a position, the directory is measured and the list shows its ranking; on failure nothing changes |
| `Board.StationBoard.LocateUserDesktop` | script.js:328-376 | on a position, the directory is measured and every card shows its own station's distance, with only the nearest station's card marked; on failure nothing changes |
| `Session.RentalSession.constructor` | script.js:7-11 | no connection, both flags clear, no scanner objects, no active drawer, modal closed |
| `Session.RentalSession.StartMobileScanner` | script.js:182-206 | the mobile flag is set and a scanner exists, whatever the camera does; no other state changes |
| `Session.RentalSession.StopMobileScanner` | script.js:209-217 | a no-op when idle; otherwise the mobile flag clears exactly when stop resolves; the desktop flag is untouched |
| `Session.RentalSession.StartDesktopScanner` | script.js:409-434 | the desktop flag is set and a scanner exists, whatever the camera does; the mobile flag is untouched |
| `Session.RentalSession.StopDesktopScanner` | script.js:437-445 | a no-op when idle; otherwise the desktop flag clears exactly when stop resolves; the mobile flag is untouched |
| `Session.RentalSession.CloseAllDrawers` | script.js:86-95 | no drawer or nav item stays active, and a running mobile scanner is stopped |
| `Session.RentalSession.OpenDrawer` | script.js:66-83 | exactly drawer d and its nav item are active; the scan drawer starts the mobile scanner; other drawers leave it as the close step left it |
| `Session.RentalSession.HandleQRScan` | script.js:220-242 | a scan never leaves the connection null; a parsed non-null value replaces it and opens the status drawer; otherwise the fallback `{id: text, station: "Unknown"}` replaces it and the drawers are untouched |
| `Session.RentalSession.DisconnectPowerBank` | script.js:275-301 | a confirmed return clears the connection and closes all drawers; an unconfirmed one changes nothing |
| `Session.RentalSession.OpenDesktopScanModal` | script.js:395-399 | the modal opens and the desktop scanner starts |
| `Session.RentalSession.CloseDesktopScanModal` | script.js:402-406 | the modal closes and the desktop scanner is stopped |
| `Session.RentalSession.OnMobileDecoded` | script.js:193-196 | a mobile decode stops the mobile scanner and always leaves a connection set |
| `Session.RentalSession.OnDesktopDecoded` | script.js:420-424 | a desktop decode stops the desktop scanner, closes the modal and always leaves a connection set |

## Left out

- `calculateDistance` (script.js:50-63): haversine arithmetic over floating-point trigonometry. It is the parameter `distance`. No symmetry or accuracy property is stated, and NaN results are not modelled.
- `Math.round` and `toFixed(2)` (script.js:157-158, 384-385): only the unit and the unrounded amount are modelled, not the digits of the text.
- Leaflet calls: map setup, station markers, `fitBounds`, the user marker, and `setView` when a list item or card is clicked (script.js:24-47, 113-136, 173, 306-325, 343-366, 518-519). These are calls into a mapping library.
- Html5Qrcode internals and promise timing: each `stop()` outcome is a `bool` settled within the event that issued it, and one outcome serves every stop in that event. Interleavings where a pending stop resolves later are not modelled. One example: a stop issued by `openDrawer('scanDrawer')` that resolves after the new scanner has started.
- Repeated stops within one decode event: the mobile decode path can issue up to three `stop()` calls, at script.js:194, then through `closeAllDrawers` at 232→93, then through `openDrawer` at 233→67→93, because `isScanning` clears only when a stop resolves. The model settles the flag at the first stop, so when that stop resolves the later calls are skipped. When it does not resolve, the later guarded stops are taken, each with the same outcome. The desktop callback likewise stops twice (script.js:421, then 422→405). What `stop()` does when called while an earlier stop is still pending is Html5Qrcode behaviour and is not modelled. If it threw synchronously, `handleQRScan` would jump to its `catch` at script.js:232, and the desktop callback would end before script.js:423.
- `navigator.geolocation` is an `Option<GeoPoint>` input. An absent service and a failed request are the same `None`, since neither changes any state. On mobile each raises an alert (script.js:141-147). On desktop only a failed request does; an absent service is silent, because the `if (navigator.geolocation)` at script.js:329 has no `else`.
- `alert`, `console.error` and the `confirm` dialog itself: `confirm` is only its `bool` answer.
- `updateMobileStatus` / `updateDesktopStatus` (script.js:245-272, 448-474): these are HTML templates showing the connection's station and id. Only the exception they raise for a `null` value is modelled.
- DOM construction and the `DOMContentLoaded` wiring by window width (script.js:478-533). Every element the script looks up is assumed to exist, and the page's static HTML is not part of this model. So the model starts with no active drawer and untouched card texts. The desktop page is assumed to hold one `.station-card` per directory entry, in directory order, so card j belongs to station j (`cards.Length == stations.Length` in `Board.StationBoard.Valid`); the code assumes the same when it indexes the cards by directory slot (script.js:388, 518).
- `Session.RentalSession.HandleQRScan`: JSON values other than `null` and `{station, id}` objects are kept as opaque `JOther` text, not as structured values.
