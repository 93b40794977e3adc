/** Typed artifact identifiers and the nodes of a plan's DAG. */
module Artifact {
  datatype Kind = Runtime | Pack | Wheel | Repair

  /** A typed reference to a content-addressed artifact. */
  datatype ID = ID(kind: Kind, digest: string)

  /** A DAG node; the metadata entries the code reads are name, version and the two tags. */
  datatype DAGNode = DAGNode(id: ID, kind: Kind, inputs: seq<ID>, name: string, version: string,
                             pyTag: string, platformTag: string, action: string)
}
