/**
 * The closed set of alert categories: each carries a fixed title and the
 * subsystem that owns it. `Wildcard` is no real detection; a subscription
 * to it stands for every category.
 */
module DetectionTypes {
  import opened Wrappers

  /** The owning subsystems that detection types use. */
  datatype Subsystem = Dot11 | Generic

  datatype DetectionType =
    | Dot11MonitorBssid
    | Dot11MonitorChannel
    | Dot11MonitorSecuritySuite
    | Dot11MonitorFingerprint
    | Dot11MonitorSignalTrack
    | Dot11MonitorDiscoAnomalies
    | Dot11MonitorSimilarLookingSsid
    | Dot11MonitorSsidSubstring
    | Dot11BanditContact
    | Dot11Probereq
    | Dot11UnapprovedSsid
    | Dot11UnapprovedClient
    | Wildcard

  /** Every detection type, in declaration order. */
  const AllTypes: seq<DetectionType> := [
    Dot11MonitorBssid, Dot11MonitorChannel, Dot11MonitorSecuritySuite, Dot11MonitorFingerprint,
    Dot11MonitorSignalTrack, Dot11MonitorDiscoAnomalies, Dot11MonitorSimilarLookingSsid,
    Dot11MonitorSsidSubstring, Dot11BanditContact, Dot11Probereq, Dot11UnapprovedSsid,
    Dot11UnapprovedClient, Wildcard]

  /** The titles given at declaration, in declaration order. */
  const Titles: seq<string> := [
    "WiFi Network Monitor: Unexpected BSSID detected",
    "WiFi Network Monitor: Unexpected channel usage detected",
    "WiFi Network Monitor: Unexpected security suite configuration detected",
    "WiFi Network Monitor: Unexpected BSSID fingerprint detected",
    "WiFi Network Monitor: Multiple BSSID signal tracks detected",
    "WiFi Network Monitor: Disconnection Event Anomalies detected",
    "WiFi Network Monitor: SSID with a similar name to the monitored SSID detected",
    "WiFi Network Monitor: SSID includes a forbidden substring",
    "WiFi Bandit detected",
    "Monitored probe request detected",
    "Unapproved SSID detected",
    "Unapproved WiFi Client detected",
    "Subscribed to all detection alerts. (Wildcard)"]

  /** A type's position in declaration order (Java's `ordinal()`). */
  function Ordinal(t: DetectionType): (r: nat)
    ensures r < |AllTypes| && AllTypes[r] == t
  {
    match t
    case Dot11MonitorBssid => 0
    case Dot11MonitorChannel => 1
    case Dot11MonitorSecuritySuite => 2
    case Dot11MonitorFingerprint => 3
    case Dot11MonitorSignalTrack => 4
    case Dot11MonitorDiscoAnomalies => 5
    case Dot11MonitorSimilarLookingSsid => 6
    case Dot11MonitorSsidSubstring => 7
    case Dot11BanditContact => 8
    case Dot11Probereq => 9
    case Dot11UnapprovedSsid => 10
    case Dot11UnapprovedClient => 11
    case Wildcard => 12
  }

  /** `getTitle`: the title given at the type's declaration. */
  function Title(t: DetectionType): (r: string)
    ensures r in Titles
  {
    Titles[Ordinal(t)]
  }

  /** `getSubsystem`: only the wildcard is generic; every real detection belongs to the 802.11 subsystem. */
  function SubsystemOf(t: DetectionType): (r: Subsystem)
    ensures r == Generic <==> t == Wildcard
    ensures r == Dot11 <==> t != Wildcard
  {
    match t
    case Wildcard => Generic
    case _ => Dot11
  }

  /** The types the WiFi network monitor raises. */
  predicate IsNetworkMonitor(t: DetectionType) {
    t in {Dot11MonitorBssid, Dot11MonitorChannel, Dot11MonitorSecuritySuite, Dot11MonitorFingerprint,
          Dot11MonitorSignalTrack, Dot11MonitorDiscoAnomalies, Dot11MonitorSimilarLookingSsid,
          Dot11MonitorSsidSubstring}
  }

  /** Every type is listed exactly once, and there are 13. */
  lemma AllTypesComplete(t: DetectionType)
    ensures t in AllTypes
    ensures |AllTypes| == 13
    ensures forall i, j | 0 <= i < j < |AllTypes| :: AllTypes[i] != AllTypes[j]
  {
  }

  /** The network monitor raises exactly the eight types declared first. */
  lemma EightNetworkMonitorTypes(t: DetectionType)
    ensures IsNetworkMonitor(t) <==> Ordinal(t) < 8
  {
  }

  /** No two declarations share a title. */
  lemma TitlesAreDistinct()
    ensures |Titles| == |AllTypes|
    ensures forall i, j | 0 <= i < j < |Titles| :: Titles[i] != Titles[j]
  {
  }

  /** A title identifies its type: distinct types have distinct titles. */
  lemma TitlesDistinct(a: DetectionType, b: DetectionType)
    requires Title(a) == Title(b)
    ensures a == b
  {
    TitlesAreDistinct();
    assert Titles[Ordinal(a)] == Titles[Ordinal(b)];
  }
}
