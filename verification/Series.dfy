/** The values that flow from collectors to storage. */
module Series {
  /** A float64 idealised to a real, plus the special values. */
  datatype Float = Finite(r: real) | NaN | PosInf | NegInf

  datatype Datapoint = Datapoint(timestamp: int, value: Float, tags: map<string, string>)

  datatype MetricHeader = MetricHeader(tenant: string, mtype: string, id: string, data: seq<Datapoint>)

  function Ids(ms: seq<MetricHeader>): set<string> {
    set m | m in ms :: m.id
  }

  /** `podId` is empty for an endpoint outside the node's pods. */
  datatype CollectorID = CollectorID(podId: string, endpointId: string)

  datatype MonitoredMetric = MonitoredMetric(
    id: string, name: string, mtype: string, units: string, description: string, tags: map<string, string>)
}
