# Real-time transit monitor: the dashboard's logic in Dafny

`vehicle_dashboard.py` is a Streamlit page that polls a GTFS Realtime vehicle-positions feed,
turns its entities into table rows, lets the user pick a route, and redraws a table, a map and a
speed histogram every `refresh_rate` seconds. At import it also trims its log directory to the
five newest `.log` files. This project models the logic under that page, with the I/O taken out:

- `Feed` (feed.dfy): the parsed `FeedMessage` entities (`FeedEntity` → `VehiclePosition` →
  `Position`, `TripDescriptor`, `VehicleDescriptor`) with proto2 presence as `Option`, and
  `get_vehicle_positions` as the method `GetVehiclePositions`, whose loop appends one record per
  entity with a `vehicle` field. `Decode` is the function it is proved against.
- `Routes` (routes.dfy): the selector's options (the sentinel `"Все"` followed by the sorted
  distinct route ids), the index the selector opens at, and the route filter.
- `Retention` (retention.dfy): `manage_log_files` over a listing of `(name, mtime)` entries;
  the files it deletes and its log lines are returned.
- `Dashboard` (dashboard.dfy): `main` as the class `Monitor`: the first load and the selector
  built once (constructor), one pass of the refresh loop (`Refresh`), a bounded number of passes
  (`RunPasses`), with everything shown on screen and logged recorded in `trace`.
- `Text`, `Logs`, `Wrappers`: Python's `str.endswith` and string order, the log messages, and
  `Option`/`Result`.

Behaviour of the code worth noting:

- A failed download or parse raises out of `main`, so the loop ends with the data of the last
  successful load. `Refresh` leaves the data as it was and marks the loop as ended
  (`running == false`).
- The route options and the selection are computed once, before the loop, and never again.
- The empty route id `""` is an option like any other (`dropna` only drops missing values).
- There is no exception handling around the deletions of old log files.
- The speed chart counts a NaN speed as missing, exactly like an unset one
  (`isna()` on the speed column).

## Model

| member | source | states |
|---|---|---|
| Feed.ToRecord | vehicle_dashboard.py:50-58 | id and route are copied ("" when unset), coordinates copied (0 when the position is unset); speed is present iff the position carries it; timestamp is present iff the vehicle's timestamp is non-zero |
| Feed.GetVehiclePositions | vehicle_dashboard.py:41-61 | a failed fetch raises after the start log line; otherwise the records are `Decode` of the entities and the count logged is the number of vehicle entities |
| Feed.DecodeLength | vehicle_dashboard.py:47-59 | exactly one record per entity that has a `vehicle` field |
| Feed.DecodeAt | vehicle_dashboard.py:48-59 | the entity at index i, if it has a vehicle, yields the record at position "number of vehicle entities before i": feed order is kept |
| Feed.DecodeAppend | vehicle_dashboard.py:48-59 | decoding is entity by entity: the records of a concatenated feed are the concatenated records |
| Feed.DecodeFromVehicles | vehicle_dashboard.py:48-51 | every record is the projection of some entity of the feed that has a vehicle field |
| Feed.DecodeNoVehicles | vehicle_dashboard.py:48-49 | entities without a vehicle field produce no record |
| Routes.DistinctRoutes | vehicle_dashboard.py:95 | the route ids strictly ascending in Python's string order, each route id of the data exactly once |
| Routes.RouteOptions | vehicle_dashboard.py:95 | the options are the sentinel followed by a strictly ascending list whose elements are exactly the route ids of the data |
| Routes.RouteOptionsUnique | vehicle_dashboard.py:95 | any strictly ascending list of exactly the data's route ids equals the options after the sentinel, i.e. the options are `sorted(unique(...))` |
| Routes.IndexOf | vehicle_dashboard.py:102 | `list.index`: the first position holding the value |
| Routes.SelectionIndex | vehicle_dashboard.py:102-103 | the position of the remembered selection when it is an option (its first occurrence), else 0; always a valid index of non-empty options |
| Routes.FilterRouteExact | vehicle_dashboard.py:109-113 | the sentinel returns the data unchanged; another selection returns an ordered subsequence of the data holding every row of that route as often as it occurs and no other row, which is empty when no row has the route |
| Routes.KeepRouteExact | vehicle_dashboard.py:110 | the boolean mask keeps rows in order, only rows of the route, and each of them with its multiplicity |
| Routes.KeepRouteAppend | vehicle_dashboard.py:110 | the mask is row by row: filtering a concatenation concatenates the filtered parts |
| Retention.LogFilesOf | vehicle_dashboard.py:31 | the candidates are exactly the listing's entries whose names end in ".log", with their multiplicities |
| Retention.LogFilesOfAppend | vehicle_dashboard.py:31 | the candidates keep the listing's order: the log files of a concatenated listing are those of each part, concatenated |
| Retention.SortByMtime | vehicle_dashboard.py:30-33 | the candidates in ascending modification time, a permutation of them |
| Retention.SortByMtimeStable | vehicle_dashboard.py:30-33 | the sort is stable: entries with equal modification times keep their listing order |
| Retention.RetentionCandidates | vehicle_dashboard.py:30-33 | the sorted candidates are as many as the log files and all are log files of the listing |
| Retention.PopOldest | vehicle_dashboard.py:34-36 | popping from the front leaves `min(n, max_files)` entries, the deleted ones being a prefix; one log line per deletion; a negative limit empties the list and then fails |
| Retention.ManageLogFiles | vehicle_dashboard.py:29-36 | deleted + kept is the ascending-mtime order of the log files; only log files are deleted; every deleted file is no newer than every kept one; nothing is deleted when there are at most `max_files`; it fails iff `max_files < 0` |
| Dashboard.SpeedDataExists | vehicle_dashboard.py:146 | the speed chart is drawn iff some row of the view has a speed that is present and not NaN |
| Dashboard.CountdownTicks | vehicle_dashboard.py:159-161 | a countdown of n seconds shows exactly n ticks, with values n, n-1, ..., 1 |
| Dashboard.Countdown | vehicle_dashboard.py:159-161 | the loop over `range(refresh_rate, 0, -1)` emits exactly the countdown ticks |
| Dashboard.DataAfterIsOneFetch | vehicle_dashboard.py:163-165 | after any run of fetches the data is the data before or the decoding of one single fetch: replaced wholesale, never merged |
| Dashboard.DataAfterLastFetch | vehicle_dashboard.py:163-165 | when every fetch succeeds the data is the decoding of the last one |
| Dashboard.PassesOfAllSucceed | vehicle_dashboard.py:106 | the loop makes one pass per fetch when all succeed, and otherwise ends with the pass whose fetch failed |
| Dashboard.FirstFailure | vehicle_dashboard.py:106-165 | when the first failed fetch is at index f, the loop makes exactly f + 1 passes and keeps the data of fetch f - 1 (or the data it started with when f is 0) |
| Dashboard.Monitor.constructor | vehicle_dashboard.py:65-104 | logs the start, loads once; with rows, the options are `RouteOptions` and the selection is the option at `SelectionIndex` of the remembered selection; without rows there are no options and the remembered selection (or the sentinel) stays |
| Dashboard.Monitor.Refresh | vehicle_dashboard.py:106-165 | one pass appends `PassEvents` to the trace: the filtered view (or the no-data warning) shown and logged, the countdown ticks, the load's log lines and, on success, the update line; success replaces the data with its decoding, failure ends the loop; options and selection are unchanged |
| Dashboard.Monitor.RunPasses | vehicle_dashboard.py:106-165 | a bounded stretch of the loop: one pass per fetch up to and including the first failure; the selection persists, the loop runs on iff every fetch succeeded, the data is that left by the fetches, and the trace grows by `TraceOf`, the events of those passes in order |

## Left out

- The Streamlit widgets, the folium map (including the mean of latitudes and longitudes) and the plotly histogram: rendering is recorded as one `ShowView` event with the filtered rows, and the histogram only as its log line (drawn when some row has a speed that is not NaN).
- `requests.get` and `ParseFromString`: network I/O and the protobuf wire decoder; the model starts from the parsed entities or the error either raised (`FeedResult`).
- `datetime.fromtimestamp(...).strftime`: local-time formatting; the record keeps the epoch seconds as an optional integer.
- Feed.ToRecord: a timestamp beyond the year 9999 (from 253402300800 on, e.g. a feed sending milliseconds) makes `datetime.fromtimestamp` raise and `get_vehicle_positions` fail; the model decodes such a vehicle normally, because the exact bound depends on the platform and the local time zone.
- `time.sleep`, `os.listdir`, `os.path.getmtime`, `os.remove`, `os.makedirs` and the logging setup: the listing is a parameter, deletions and log lines are returned or recorded, and a failing `os.remove` (which would raise) is not modelled.
- `os.path.join`: deleted files are reported by their directory entry, not by joined path.
- Latitude, longitude and speed are the bit patterns of the protobuf floats, copied unchanged; the mean of the coordinates and the NaN checks folium applies to them are not modelled (see the `Dashboard.Monitor.Refresh` line), and a speed is only tested for NaN; modification times are reals, only compared.
- Dashboard.Monitor.Refresh: folium raises, ending `main`, whenever the view gives it a NaN location: with data present but no row of the selected route (the map's centre is the mean of an empty column), when every latitude or every longitude of the view is NaN (a NaN centre), or when any row's latitude or longitude is NaN (its marker's location); the model shows such a view and goes on, because folium's location checks are not part of this model.
- The unbounded `while True`: one pass (`Refresh`) and any finite number of passes (`RunPasses`) are modelled.
- Dashboard.Monitor.constructor: the selectbox is modelled as returning the option at the index it opens at; a user's later pick reaches the model as the remembered selection of the next script run, because Streamlit reruns the script on every widget change.
- Dashboard.Monitor.constructor: the slider's bounds 5..60 for `refresh_rate` are taken as given.
- Protobuf fields the dashboard never reads (trip ids, labels, bearing, trip updates, alerts) are omitted from the entity datatypes.
