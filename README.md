# Plant monitor — a Dafny model

This project models the logic of a small React plant-monitoring app. It also proves properties of that logic. The app itself is not run: the model and its proofs are checked by the Dafny verifier.

In the app, a user logs in, picks a garden, browses its plants and opens one plant's details. From these screens the user can add and delete gardens and plants. A garden can also be linked to a Room Alert sensor. Its live temperature and humidity then appear above the plant list, either fetched straight from the Room Alert public API or through a small serverless relay.

The model has one module per source file:

- `Types` (`types.dfy`): the entities, plus the parts of JavaScript's value model that the sensor code depends on:
  - JSON values;
  - the number-or-NaN that `parseFloat` yields;
  - truthiness;
  - an HTTP exchange whose outcome is handed in from outside.
- `Text` (`text.dfy`): `trim` with the ECMAScript white-space set, ASCII `toLowerCase`, `includes`, and the decimal rendering of a status code.
- `PlantHelpers` (`plant_helpers.dfy`): the health, temperature and humidity colour classes.
- `Store` (`store.dfy`): the pure collection transforms inside the root component's handlers, and the store invariant `Consistent`. The invariant holds when:
  - garden ids are distinct;
  - the plant map has exactly one entry per garden;
  - every cached `plantCount` equals the length of its garden's list;
  - plant ids are distinct across all gardens.
- `MockData` (`mock_data.dfy`): the sample gardens and plants the app starts with.
- `App` (`app.dfy`): the root component. It is a class with the five state cells; each handler is a method that overwrites them.
- `GardenSelection` (`garden_selection.dfy`): the garden list screen's form cells, and how its sensor configuration dialog normalises input.
- `RoomAlertService` (`room_alert_service.dfy`): the browser-side fetch. This covers the request URL, the two first-match searches over `sensors`, and how a reading is put together.
- `RoomAlertRelay` (`room_alert_relay.dfy`): the serverless handler.
- `EnvironmentData` (`environment_data.dfy`): the live widget. This covers its four state cells, the poll callback, the render decision, the age label, and the outcomes the poller delivers.

The outside world enters as parameters:

- `window.confirm` is a boolean;
- the outcome of `fetch` and `response.json()` is an `HttpReply`;
- `parseFloat` is a function argument;
- the clock is an integer number of milliseconds;
- `import.meta.env` is an optional string;
- `toLocaleString` is a string argument.

Two behaviours of the code deserve a note, because the model keeps them as written:

- **Deleting a missing plant id.** The delete-plant handler decrements the selected garden's `plantCount` whether or not a plant had the id (src/App.tsx:98-100). `App.AppState.DeletePlant` does the same.
  - `Store.DeleteAbsentPlantBreaksCount` shows that such a delete breaks the store invariant.
  - The detail screen only ever passes the id of the plant it shows (src/components/PlantDetail.tsx:42). `App.AppState.ShownPlantListed` says that this plant is one of the selected garden's listed plants. `App.AppState.SelectPlant` establishes it for a plant picked from the list on show. `Logout`, `SelectGarden` and `Back` establish it, and `Login`, `UpdateGarden` and `DeletePlant` keep it. `AddGarden` and `AddPlant` keep it in a consistent store. `DeleteGarden` keeps it unless it deletes the garden of the plant on show. `App.AppState.DeletePlant` proves that deleting the shown plant keeps the invariant, through `App.DeleteShownPlantOccursOnce`.
- **Polling.** `startPolling` is meant to run the callback once at once and then on every tick. As written, no tick ever reaches the callback (see Findings).

The one place where the model does not follow the code is the id rule. `App.AppState.AddGarden` and `App.AppState.AddPlant` use the corrected next-id rule of the Findings table, which gives 1 on an empty collection where the code gives -Infinity (see "## Left out").

## Model

| member | source | states |
|---|---|---|
| `Text.TrimSpec` | src/components/GardenSelection.tsx:52-56 | `trim` leaves no white space at either end. It gives "" exactly for all-space input. Its result is the infix of the input between a white-space prefix and a white-space suffix. |
| `Text.TrimIdempotent` | src/components/GardenSelection.tsx:52-56 | Trimming a trimmed string changes nothing. |
| `Text.NatToString` | api/room-alert.ts:24 | A status renders as a non-empty string of decimal digits without a leading zero, and that string reads back as the status. |
| `PlantHelpers.HealthColor` | src/utils/plantHelpers.ts:3-16 | Green exactly for 'Excellent', blue exactly for 'Good', yellow exactly for 'Fair', red exactly for 'Poor', and the gray default exactly for any other string. |
| `PlantHelpers.HealthColorsDistinct` | src/utils/plantHelpers.ts:3-15 | The four health values get four different colours, none of them gray. |
| `PlantHelpers.TempColor` | src/utils/plantHelpers.ts:18-22 | Blue exactly below 60, red exactly above 80, green exactly on [60, 80]; every input gets one class. |
| `PlantHelpers.HumidityColor` | src/utils/plantHelpers.ts:24-28 | Orange exactly below 40, blue exactly above 70, green exactly on [40, 70]. |
| `PlantHelpers.TempColorMonotone` | src/utils/plantHelpers.ts:18-22 | A warmer temperature never gets a colder class: the rank blue < green < red never decreases. |
| `PlantHelpers.NaNShowsGreen` | src/utils/plantHelpers.ts:18-28 | NaN fails both comparisons, so both colour functions show it green. |
| `Store.MaxOf` | src/App.tsx:41 | The maximum of a non-empty id list is one of its ids and is at least every id. |
| `Store.NextId` | src/App.tsx:41 | The new garden id is above every existing id. It is one past the largest, or 1 when there are none. |
| `Store.NextIdUnique` | src/App.tsx:41 | The next-id property pins down exactly one id. |
| `Store.JsMaxPlusOne` | src/App.tsx:41 | As written, `Math.max(...ids) + 1` is an integer exactly when the list is non-empty, and then it is above every id and one past the largest. |
| `Store.JsMaxOfNothingIsNotAnId` | src/App.tsx:41 | As written, an empty id list yields -Infinity, which is not an integer id. |
| `Store.NextIdAgreesWithSource` | src/App.tsx:68 | Whenever the as-written expression gives an integer, it is the corrected next id. |
| `Store.NextPlantId` | src/App.tsx:68 | The new plant id is above every plant id in every garden's list. It is one past the largest, or 1 when there are none. |
| `Store.WithoutGarden` | src/App.tsx:51 | Filtering keeps exactly the gardens with another id; afterwards no garden has the id; an absent id changes nothing. |
| `Store.WithoutGardenKeepsOrder` | src/App.tsx:51 | The filter distributes over concatenation, so the survivors keep their order. |
| `Store.WithoutGardenDistinct` | src/App.tsx:51 | The filter keeps garden ids distinct. |
| `Store.ReplaceGarden` | src/App.tsx:59 | Every garden with the updated id becomes the update; all others stay in place; the id sequence is unchanged. |
| `Store.BumpCount` | src/App.tsx:84-86 | Only the gardens with the id change, and only in `plantCount`, by the given delta. Order and ids are kept. |
| `Store.FindGarden` | src/App.tsx:88 | `find` returns a garden exactly when one has the id, and that is the first such garden. |
| `Store.FindGardenInDistinct` | src/App.tsx:102 | With distinct ids, looking up a garden's id finds that garden. |
| `Store.WithoutPlant` | src/App.tsx:95 | Filtering keeps exactly the plants with another id. The length drops by the number of matches, and none remain. |
| `Store.WithoutPlantKeepsOrder` | src/App.tsx:95 | The filter distributes over concatenation, so the surviving plants keep their order. |
| `Store.SurvivorComesFromList` | src/App.tsx:95 | Every surviving plant is a plant of the original list with another id. |
| `Store.FilterKeepsDistinct` | src/App.tsx:95 | Filtering a list with distinct plant ids keeps them distinct. |
| `Store.FilteredDistinct` | src/App.tsx:94-96 | Replacing one garden's list by its filtered list keeps plant ids distinct across the whole map. |
| `Store.NewPlant` | src/App.tsx:67-78 | The new plant has the given id and the form's name and type, temperature 72, humidity 60, light 'Medium', water 'Good', watered 'Just now' and health Good. Its image is the form's when non-empty, else the default image, so never empty. |
| `Store.AppendPlant` | src/App.tsx:80-81 | The plant is appended to the garden's list, which starts empty if missing. Every other list is unchanged. |
| `Store.AddGardenKeepsConsistent` | src/App.tsx:39-47 | Appending a new garden with the next id and an empty list keeps the store invariant. |
| `Store.DeleteGardenKeepsConsistent` | src/App.tsx:49-56 | Removing a garden and its plant list keeps the store invariant. |
| `Store.UpdateGardenKeepsConsistent` | src/App.tsx:58-63 | Replacing a garden by an update with the same count keeps the store invariant. |
| `Store.AddPlantKeepsConsistent` | src/App.tsx:65-90 | Appending a plant with a fresh id to an existing garden and adding one to its count keeps the store invariant. |
| `Store.DeletePlantKeepsConsistent` | src/App.tsx:92-105 | Filtering out a plant id that occurs once and subtracting one from the count keeps the store invariant. |
| `Store.DeleteAbsentPlantBreaksCount` | src/App.tsx:92-105 | Deleting an id that is not in the list still subtracts one, which breaks the cached count. |
| `MockData.MockPlantIdsInOrder` | src/constants/mockData.ts:9-196 | The sample plants are numbered 1 to 15 consecutively, garden by garden. |
| `MockData.MockConsistent` | src/constants/mockData.ts:3-196 | The sample data satisfies the store invariant: counts 8, 4 and 3 match the lists. |
| `MockData.MockPlantIds` | src/constants/mockData.ts:9-196 | The sample plant ids are exactly 1 to 15. |
| `MockData.FirstGardenIdIsFour` | src/constants/mockData.ts:3-7 | The first garden added to the sample data gets id 4. |
| `MockData.FirstPlantIdIsSixteen` | src/constants/mockData.ts:9-196 | The first plant added to the sample data gets id 16. |
| `App.AppState.constructor` | src/App.tsx:10-14 | A session starts logged out with nothing selected, on the sample data, which is consistent. |
| `App.AppState.View` | src/App.tsx:107-147 | The login screen shows exactly when logged out. The garden list shows exactly when logged in with no garden selected. The plant list shows the selected garden's plants (or none when it has no list) exactly when no plant is selected. Otherwise the detail of the selected plant shows. |
| `App.AppState.Login` | src/App.tsx:16-18 | Login sets the flag and changes nothing else. |
| `App.AppState.Logout` | src/App.tsx:20-24 | Logout clears the flag and both selections and keeps the collections; the login screen shows. |
| `App.AppState.SelectGarden` | src/App.tsx:26-29 | Selecting a garden clears the selected plant. |
| `App.AppState.SelectPlant` | src/App.tsx:126-137 | The plant list writes the selected plant and nothing else. A plant picked from the list on show is listed under the selected garden. |
| `App.AppState.Back` | src/App.tsx:31-37 | Back clears the plant if one is set, else the garden. Detail goes back to the plant list, and the list goes back to the gardens. |
| `App.AppState.AddGarden` | src/App.tsx:39-47 | The new garden has the next id, count 0 and no sensor, and is appended last with an empty plant list. Its id is above all others and equals the code's `Math.max(...) + 1` whenever that is an integer. The invariant and the shown plant's listing are kept. |
| `App.AppState.DeleteGarden` | src/App.tsx:49-56 | Declined: nothing changes. Confirmed: the garden and its plant list go. The invariant is kept either way. |
| `App.AppState.UpdateGarden` | src/App.tsx:58-63 | The update replaces the garden in place and refreshes the selection if it is that garden. The invariant is kept when the count is unchanged. |
| `App.AppState.AddPlant` | src/App.tsx:65-90 | With a garden selected, a plant with the next id over all gardens and the default care fields is appended to that garden's list. Its count goes up by one, the selection is re-read, and the invariant is kept. |
| `App.AppState.DeletePlant` | src/App.tsx:92-105 | Confirmed with a garden selected: the plant is filtered out, the count goes down by one, the selection is re-read and the plant cleared. The invariant is kept when the id occurs once, and so when the id is that of the plant on show. |
| `App.DeleteShownPlantOccursOnce` | src/App.tsx:92-105 | In a consistent store, the plant on show occurs exactly once in its garden's list. |
| `GardenSelection.TrimmedOrUndefined` | src/components/GardenSelection.tsx:55-56 | The trim-or-undefined fallback is absent exactly for blank input. Otherwise it is the trimmed, non-empty text. |
| `GardenSelection.BuildConfig` | src/components/GardenSelection.tsx:52-57 | No configuration exactly when the device id is blank. Otherwise every field is trimmed, the sensor name defaults to 'Room Alert Sensor', and blank model or serial are dropped. |
| `GardenSelection.LoadFields` | src/components/GardenSelection.tsx:39-46 | Opening loads the device id and sensor name as stored. A model or serial number is loaded as stored, and the input is empty exactly when it is missing or empty. Opening with no configuration clears all four inputs. |
| `GardenSelection.SavedGarden` | src/components/GardenSelection.tsx:50-51 | Saving copies the id, name and count of the edited garden unchanged. |
| `GardenSelection.OpenThenSaveRoundTrip` | src/components/GardenSelection.tsx:42-57 | Opening a normalised configuration and saving without edits reproduces it. Opening none and saving gives none. |
| `GardenSelection.SaveIsStable` | src/components/GardenSelection.tsx:42-57 | Save, reopen and save again gives the same configuration. |
| `GardenSelection.PresetsSaveAsTyped` | src/components/GardenSelection.tsx:267-287 | The two quick-setup devices save exactly as their buttons typed them. |
| `GardenSelection.SaveKeepsStoreConsistent` | src/components/GardenSelection.tsx:48-59 | Handing a saved garden to update-garden keeps the store invariant. |
| `GardenSelection.GardenSelectionState.constructor` | src/components/GardenSelection.tsx:23-29 | All seven form cells start closed or empty. |
| `GardenSelection.GardenSelectionState.OpenAddGarden` | src/components/GardenSelection.tsx:127 | The add button opens the dialog. |
| `GardenSelection.GardenSelectionState.CancelAddGarden` | src/components/GardenSelection.tsx:158-159 | Cancel closes the dialog and clears the name. |
| `GardenSelection.GardenSelectionState.TypeGardenName` | src/components/GardenSelection.tsx:145 | Typing sets the name only. |
| `GardenSelection.GardenSelectionState.SubmitNewGarden` | src/components/GardenSelection.tsx:31-37 | A garden is added exactly when the name is not blank. The untrimmed name is passed on, and the dialog closes and clears. |
| `GardenSelection.GardenSelectionState.OpenConfig` | src/components/GardenSelection.tsx:39-46 | The dialog loads the garden's fields, with '' for missing ones. |
| `GardenSelection.GardenSelectionState.EditFields` | src/components/GardenSelection.tsx:184-231 | The inputs are overwritten and the edited garden kept. |
| `GardenSelection.GardenSelectionState.SaveConfig` | src/components/GardenSelection.tsx:48-66 | With no garden being edited nothing is handed over. Otherwise the saved garden is handed over and the dialog is cleared. |
| `GardenSelection.GardenSelectionState.CancelConfig` | src/components/GardenSelection.tsx:246-250 | Cancel clears the dialog without handing anything over. |
| `RoomAlertService.SameUpstreamAsRelay` | src/utils/roomAlertService.ts:18-32 | With the base URL unset or empty, the browser requests the same URL that the relay requests upstream for an accepted device id. |
| `RoomAlertService.RequestUrl` | src/utils/roomAlertService.ts:32 | The URL is the base, then '/public/device/', then the device id. |
| `RoomAlertService.RequestUrlInjective` | src/utils/roomAlertService.ts:32 | Two devices never share a request URL under the same base. |
| `RoomAlertService.Matches` | src/utils/roomAlertService.ts:56-67 | Only objects match. An entry throws exactly when it is null, or when its name is neither a string nor null. |
| `RoomAlertService.Stop` | src/utils/roomAlertService.ts:56-67 | `find` stops at the first entry that is not a plain no, or at the end. |
| `RoomAlertService.Find` | src/utils/roomAlertService.ts:56-67 | `find` finds nothing exactly when every entry is a plain no. A found entry matches and every earlier entry is a plain no. A raise comes from a throwing entry with only plain noes before it. |
| `RoomAlertService.FindIsFirstMatch` | src/utils/roomAlertService.ts:56-67 | The entry found is the first in array order that matches. An earlier throwing entry raises instead. |
| `RoomAlertService.FindAbsent` | src/utils/roomAlertService.ts:56-67 | Nothing is found exactly when every entry is a plain no. |
| `RoomAlertService.FindFound` | src/utils/roomAlertService.ts:56-70 | A found entry is a matching object of the array. |
| `RoomAlertService.FetchSensorData` | src/utils/roomAlertService.ts:26-89 | A reading exists exactly when the exchange succeeds with a `sensors` array and both searches find an entry. The device id is echoed, and the values are `parseFloat` of the found entries. |
| `RoomAlertService.ReadingFallbacks` | src/utils/roomAlertService.ts:81-83 | The timestamp is `timestamp`, else `last_updated`, else the clock. The name is the hint, else the response's `name`, else 'Room Alert Device'. |
| `RoomAlertService.FailedExchangeGivesNull` | src/utils/roomAlertService.ts:43-88 | A network failure, a non-OK status or an unparsable body gives null, never an exception. |
| `RoomAlertService.NoSensorsArrayGivesNull` | src/utils/roomAlertService.ts:55-76 | A body without a `sensors` array gives null. |
| `RoomAlertService.ThrowingEntryGivesNull` | src/utils/roomAlertService.ts:56-61 | An entry whose name cannot be lower-cased, met before any match, makes the read give null. |
| `RoomAlertService.NaNValuesStillRead` | src/utils/roomAlertService.ts:69-73 | Matched entries with non-numeric values still give a reading, with NaN values. |
| `RoomAlertService.OneEntryAnswersBoth` | src/utils/roomAlertService.ts:56-67 | One entry can answer both searches, and then both values come from it. |
| `RoomAlertService.NameSearchIgnoresCase` | src/utils/roomAlertService.ts:56-67 | For every entry and both searches, a name decides exactly as its lower-cased form does. |
| `RoomAlertService.UpperCaseNameFound` | src/utils/roomAlertService.ts:57 | A sensor named "Room TEMP" is a temperature entry. |
| `RoomAlertRelay.Handle` | api/room-alert.ts:3-36 | A missing, empty or repeated id gives 400 with no upstream request. Otherwise the fixed host's device URL is fetched. A non-OK status passes through with an error naming it, a parsed OK body is returned with 200, and failures give 500. |
| `RoomAlertRelay.SuccessOnlyOnUpstreamSuccess` | api/room-alert.ts:22-29 | The relay answers 2xx exactly when the id was accepted and the upstream answered 2xx with a parsable body. |
| `RoomAlertRelay.UpstreamErrorNamesStatus` | api/room-alert.ts:22-26 | The error message is the fixed prefix followed by digits that read back as the upstream status. |
| `RoomAlertRelay.RepeatedIdIsRefused` | api/room-alert.ts:7-11 | A repeated `deviceId` (an array) is refused like a missing one. |
| `EnvironmentData.AfterPoll` | src/components/EnvironmentData.tsx:35-44 | A poll ends loading. A reading replaces the data, clears the error and stamps the time; a failure sets the error and keeps the data and its time. |
| `EnvironmentData.ColoursAgreeWithPlantHelpers` | src/components/EnvironmentData.tsx:89-99 | The widget's own colour thresholds equal the plant helpers' for every value. |
| `EnvironmentData.TemperatureColor` | src/components/EnvironmentData.tsx:89-93 | Blue exactly below 60, red exactly above 80, green otherwise (NaN included). |
| `EnvironmentData.HumidityColor` | src/components/EnvironmentData.tsx:95-99 | Orange exactly below 40, blue exactly above 70, green otherwise (NaN included). |
| `EnvironmentData.Render` | src/components/EnvironmentData.tsx:54-147 | No device shows the notice. The spinner shows exactly while loading with no data. The error notice shows exactly when not loading, with no data and a non-empty error, and it shows that error. Nothing shows exactly when not loading with no data and no error. Otherwise the readings show, coloured by the widget's thresholds. |
| `EnvironmentData.FailureKeepsLastReading` | src/components/EnvironmentData.tsx:35-87 | A failure after a success keeps showing the last reading. |
| `EnvironmentData.FirstFailureShowsError` | src/components/EnvironmentData.tsx:35-85 | A failure with nothing read yet shows the error text. |
| `EnvironmentData.ReadingSurvivesFailures` | src/components/EnvironmentData.tsx:35-44 | No run of failures loses a reading or its time. |
| `EnvironmentData.NeverBlank` | src/components/EnvironmentData.tsx:54-87 | Every state reachable from mounting is settled, so a configured widget never renders blank. |
| `EnvironmentData.PollTick` | src/utils/roomAlertService.ts:134-139 | A tick rejects before any fetch exactly when the identifier its fetch call names is not in scope. Otherwise the callback gets the fetch's answer for that identifier's value. |
| `EnvironmentData.TickAsWritten` | src/utils/roomAlertService.ts:134-139 | As written, the call names `macAddress`, which is not in `fetchData`'s scope, so every tick rejects whatever the device would answer. |
| `EnvironmentData.TickAsIntended` | src/utils/roomAlertService.ts:125-139 | Naming `deviceId` instead, a tick hands the callback the answer for the subscribed device. |
| `EnvironmentData.TicksAsWritten` | src/utils/roomAlertService.ts:134-144 | As written, every tick the poller produces rejects, one per answer the device would give. |
| `EnvironmentData.RejectedTicksChangeNothing` | src/utils/roomAlertService.ts:134-144 | Rejected ticks leave every widget cell unchanged. |
| `EnvironmentData.PollingAsWrittenSpinsForever` | src/utils/roomAlertService.ts:134-144 | As written, a configured widget shows the spinner forever. |
| `EnvironmentData.PollingShowsFirstReading` | src/components/EnvironmentData.tsx:35-40 | As intended, a first tick after mounting on which the device answers shows that reading with its colours. |
| `EnvironmentData.AgeOf` | src/components/EnvironmentData.tsx:101-107 | Under a minute gives "just now", a clock that went backwards included. Then whole minutes 1-59 bounded by the elapsed time, then whole hours 1-23, then an absolute date from a day on. |
| `EnvironmentData.AgeNeverGetsYounger` | src/components/EnvironmentData.tsx:101-109 | A later look never shows a fresher label. |
| `EnvironmentData.FormatTimestamp` | src/components/EnvironmentData.tsx:101-109 | The label is 'Just now', '<m>m ago', '<h>h ago' or the locale string, according to the bucket. |
| `EnvironmentData.Widget.constructor` | src/components/EnvironmentData.tsx:17-20 | The widget mounts loading, with no data, error or update time. |
| `EnvironmentData.Widget.Subscribe` | src/components/EnvironmentData.tsx:22-30 | With no device it stops loading and does not poll. Otherwise it sets loading, clears the error, keeps any earlier reading and polls. |
| `EnvironmentData.Widget.OnPoll` | src/components/EnvironmentData.tsx:35-44 | The callback writes exactly what the poll function gives. |

## Left out

- JSX and layout in every component, plus `src/components/GreenThumbLogo.tsx` and `src/components/PlantDetail.tsx`. The latter's only computation is a floating-point bar width.
- The submit guards of `src/components/LoginScreen.tsx:13` and `src/components/PlantSelection.tsx:26` are not made preconditions of `App.AppState.Login` and `App.AppState.AddPlant`. The root handlers do not require them, so those methods accept any input, as the root component does.
- App.AppState.AddGarden: uses the corrected id rule `Store.NextId`, which gives 1 when there are no gardens, where src/App.tsx:41 gives -Infinity (see Findings). On a non-empty list the two agree, and the method's contract says so.
- App.AppState.AddPlant: uses the corrected id rule `Store.NextPlantId`, which gives 1 when no garden holds a plant, where src/App.tsx:68 gives -Infinity (see Findings).
- `window.confirm` is a boolean argument of the two delete handlers. The dialog itself is not modelled.
- `fetchMockSensorData` is not modelled: it uses `Math.random`, `setTimeout` and floating-point rounding.
- `startPolling`'s timer scheduling (`setInterval`, `clearInterval`, overlapping in-flight fetches, the cleanup the effect returns) is not modelled. Only the outcomes that its ticks deliver to the callback are.
- `fetch`, `response.json()`, `import.meta.env`, `Date.now()`, `new Date(...)` parsing, `toLocaleString` and the relay's request and response objects are not modelled; they are parameters or left abstract.
- `console.warn` and `console.error` are not modelled. The `console.warn` at src/utils/roomAlertService.ts:74 names an undeclared `macAddress`, so it throws. The catch turns that throw into the same null that the model returns.
- IEEE-754 arithmetic is not modelled. Sensor values are reals or NaN, plant temperatures are integers, and `parseFloat` is an abstract function argument.
- `toLowerCase` is modelled on ASCII letters only: Unicode case mapping is not.
- The `RoomAlertResponse` type is not modelled: no code reads it. `vite.config.ts` (build and dev proxy) is not part of this model.

## Findings

| source | as written | input that shows it | evidently intended | confidence | as-written member | corrected member |
|---|---|---|---|---|---|---|
| src/App.tsx:41 | the new garden id is `Math.max(...ids) + 1`, which is -Infinity when there are no gardens, and stays -Infinity for every garden added after it | delete all three sample gardens, then add one | id 1 when there are no gardens, like every later id one past the largest | high, not executed | `Store.JsMaxOfNothingIsNotAnId` | `Store.NextId` |
| src/App.tsx:68 | the new plant id is `Math.max(...ids) + 1` over all gardens, which is -Infinity when no garden holds a plant | add a garden to an empty list, then add a plant to it | id 1 when there are no plants | high, not executed | `Store.JsMaxPlusOne` | `Store.NextPlantId` |
| src/utils/roomAlertService.ts:136-137 | each polling tick calls the fetch with the undeclared `macAddress`, which throws a ReferenceError before any fetch, so the callback never runs | configure any device on a garden and open its plant list | each tick fetches the subscribed `deviceId` and hands the result to the callback | high, not executed | `EnvironmentData.PollingAsWrittenSpinsForever` | `EnvironmentData.PollingShowsFirstReading` |
