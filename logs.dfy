/** The messages vehicle_dashboard.py writes through `logging`, as values. */
module Logs {

  datatype LogEntry =
    | AppStarted              // "application started"
    | LoadStarted             // "loading from GTFS-RT started"
    | Loaded(count: nat)      // "loaded <count> vehicles"
    | RouteSelected(route: string)
    | AllRoutesSelected
    | SpeedChartUpdated
    | NoSpeedData             // warning: no speed data for the chart
    | NoData                  // warning: nothing to display
    | DataUpdated
    | OldLogRemoved           // one per deleted log file
}
