/** A driver with its capability cache (`capabilities.go`, `Entry` of `pool.go`). */
module Capability {
  import opened Prelude
  import opened Schema

  datatype Caps = Caps(
    version: string,
    edition: string,
    apocAvailable: bool,
    apocVersion: string,
    apocExtended: bool,
    monitorKernel: bool,
    monitorStore: bool,
    monitorTx: bool,
    monitorIds: bool,
    metaStats: bool)

  const NO_CAPS := Caps("", "", false, "", false, false, false, false, false, false)

  /** One row of `dbms.components()`. */
  datatype Component = Component(versions: seq<string>, edition: string)

  datatype Answer<+R> = Rows(rows: seq<R>) | Failed

  /** What the server answers to the three queries of one probe. */
  datatype Probe = Probe(components: Answer<Component>, apoc: Answer<string>, procedures: Answer<string>)

  predicate Listed(p: Probe, procedure: string) {
    p.procedures.Rows? && procedure in p.procedures.rows
  }

  predicate Extended(p: Probe) {
    exists name ::
      name in {"apoc.monitor.kernel", "apoc.monitor.store", "apoc.monitor.tx", "apoc.monitor.ids"} && Listed(p, name)
  }

  /** What a complete probe says about the server; a server that does not answer the first query has no capabilities. */
  function Derive(p: Probe): Option<Caps> {
    if p.components.Failed? then None
    else
      var first := if p.components.rows == [] then Component([], "") else p.components.rows[0];
      var apoc := p.apoc.Rows? && p.apoc.rows != [];
      Some(Caps(
        if first.versions == [] then "" else first.versions[0],
        first.edition,
        apoc,
        if apoc then p.apoc.rows[0] else "",
        Extended(p),
        Listed(p, "apoc.monitor.kernel"),
        Listed(p, "apoc.monitor.store"),
        Listed(p, "apoc.monitor.tx"),
        Listed(p, "apoc.monitor.ids"),
        Listed(p, "apoc.meta.stats")))
  }

  /** A handle of the driver library: what it was opened with. */
  class Driver {
    const uri: string
    const credentials: Option<(string, string)>

    constructor (uri: string, credentials: Option<(string, string)>)
      ensures this.uri == uri && this.credentials == credentials
    {
      this.uri := uri;
      this.credentials := credentials;
    }
  }

  class Entry {
    const driver: Driver
    const address: string
    const bolt: Bolt
    var caps: Option<Caps>

    constructor (driver: Driver, address: string, bolt: Bolt)
      ensures this.driver == driver && this.address == address && this.bolt == bolt && caps == None
    {
      this.driver := driver;
      this.address := address;
      this.bolt := bolt;
      caps := None;
    }

    /** `answer` is what the server would say if it were asked now; a filled cache is not asked again. */
    method Capabilities(answer: Probe) returns (r: Option<Caps>)
      modifies this`caps
      ensures r == if old(caps).Some? then old(caps) else Derive(answer)
      ensures caps == r
    {
      if caps.Some? {
        return caps;
      }
      if answer.components.Failed? {
        return None;
      }
      var found := NO_CAPS;
      if answer.components.rows != [] {
        var row := answer.components.rows[0];
        found := found.(version := if row.versions == [] then "" else row.versions[0], edition := row.edition);
      }
      if answer.apoc.Rows? && answer.apoc.rows != [] {
        found := found.(apocAvailable := true, apocVersion := answer.apoc.rows[0]);
      }
      if answer.procedures.Rows? {
        found := MarkProcedures(found, answer.procedures.rows);
      }
      found := found.(apocExtended := found.monitorKernel || found.monitorStore || found.monitorTx || found.monitorIds);
      ExtendedIsDisjunction(answer);
      caps := Some(found);
      return caps;
    }

    method InvalidateCapabilities()
      modifies this`caps
      ensures caps == None
    {
      caps := None;
    }
  }

  lemma ExtendedIsDisjunction(p: Probe)
    ensures Extended(p) <==>
            Listed(p, "apoc.monitor.kernel") || Listed(p, "apoc.monitor.store") ||
            Listed(p, "apoc.monitor.tx") || Listed(p, "apoc.monitor.ids")
  {
  }

  /** Each procedure flag ends up raised exactly when a row names its procedure; nothing else changes. */
  method MarkProcedures(start: Caps, rows: seq<string>) returns (c: Caps)
    ensures c == start.(
              monitorKernel := start.monitorKernel || "apoc.monitor.kernel" in rows,
              monitorStore := start.monitorStore || "apoc.monitor.store" in rows,
              monitorTx := start.monitorTx || "apoc.monitor.tx" in rows,
              monitorIds := start.monitorIds || "apoc.monitor.ids" in rows,
              metaStats := start.metaStats || "apoc.meta.stats" in rows)
  {
    c := start;
    ghost var seen: set<string> := {};
    for i := 0 to |rows|
      invariant forall p :: p in seen <==> p in rows[..i]
      invariant c == start.(
                monitorKernel := start.monitorKernel || "apoc.monitor.kernel" in seen,
                monitorStore := start.monitorStore || "apoc.monitor.store" in seen,
                monitorTx := start.monitorTx || "apoc.monitor.tx" in seen,
                monitorIds := start.monitorIds || "apoc.monitor.ids" in seen,
                metaStats := start.metaStats || "apoc.meta.stats" in seen)
    {
      c := MarkProcedure(c, rows[i]);
      seen := seen + {rows[i]};
    }
    assert rows[..|rows|] == rows;
  }

  method MarkProcedure(start: Caps, name: string) returns (c: Caps)
    ensures c == start.(
              monitorKernel := start.monitorKernel || name == "apoc.monitor.kernel",
              monitorStore := start.monitorStore || name == "apoc.monitor.store",
              monitorTx := start.monitorTx || name == "apoc.monitor.tx",
              monitorIds := start.monitorIds || name == "apoc.monitor.ids",
              metaStats := start.metaStats || name == "apoc.meta.stats")
  {
    match name
    case "apoc.monitor.kernel" => c := start.(monitorKernel := true);
    case "apoc.monitor.store" => c := start.(monitorStore := true);
    case "apoc.monitor.tx" => c := start.(monitorTx := true);
    case "apoc.monitor.ids" => c := start.(monitorIds := true);
    case "apoc.meta.stats" => c := start.(metaStats := true);
    case _ => c := start;
  }

  /** Which row of which answer each capability comes from. */
  lemma {:induction false} DerivedFrom(p: Probe)
    ensures Derive(p).Some? <==> p.components.Rows?
    ensures p.components.Rows? ==>
              var c, rows := Derive(p).value, p.components.rows;
              && c.version == (if rows != [] && rows[0].versions != [] then rows[0].versions[0] else "")
              && c.edition == (if rows != [] then rows[0].edition else "")
              && (c.apocAvailable <==> p.apoc.Rows? && |p.apoc.rows| > 0)
              && c.apocVersion == (if p.apoc.Rows? && |p.apoc.rows| > 0 then p.apoc.rows[0] else "")
    ensures p.components.Rows? ==>
              var c, listed := Derive(p).value, if p.procedures.Rows? then p.procedures.rows else [];
              && (c.monitorKernel <==> "apoc.monitor.kernel" in listed)
              && (c.monitorStore <==> "apoc.monitor.store" in listed)
              && (c.monitorTx <==> "apoc.monitor.tx" in listed)
              && (c.monitorIds <==> "apoc.monitor.ids" in listed)
              && (c.metaStats <==> "apoc.meta.stats" in listed)
              && (c.apocExtended <==> c.monitorKernel || c.monitorStore || c.monitorTx || c.monitorIds)
  {
    ExtendedIsDisjunction(p);
  }
}
