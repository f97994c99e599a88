/**
 * The parts of a `values.yaml` site configuration the generator reads, as
 * `yaml.safe_load` would hand them over.
 */
module Values {
  import opened Wrappers

  /**
   * One entry of `epicsConfiguration.services`. The two ingress flags hold the
   * truthiness of `enable_ingress` and of `ingress.enabled` (false when absent);
   * the optional keys hold the text of their value when present.
   */
  datatype ServiceConfig = ServiceConfig(
    enableIngress: bool,
    ingressEnabled: bool,
    loadbalancer: Option<string>,
    path: Option<string>,
    desc: Option<string>)

  /** A `name: config` pair of the services mapping, in file order. */
  datatype ServiceEntry = ServiceEntry(name: string, config: ServiceConfig)

  /** One entry of `epicsConfiguration.iocs`. */
  datatype IocEntry = IocEntry(name: string, desc: Option<string>)

  /** `beamline` and `epik8namespace` default to the empty string; the lists to empty lists. */
  datatype Values = Values(
    beamline: string,
    namespace: string,
    iocs: seq<IocEntry>,
    services: seq<ServiceEntry>)
}
