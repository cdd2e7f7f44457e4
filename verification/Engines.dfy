/** Where file contents are kept (internal/service/storage.go resolveEngine and the deployments it serves). */
module Engines {
  type Id = string
  type Bytes = seq<bv8>

  datatype Backend = Local | S3

  /** The engines a running server has: the main one, and the local one kept for older files. */
  datatype Deployment = LocalOnly | S3Only | S3WithLocal

  function MainEngine(d: Deployment): Backend {
    if d == LocalOnly then Local else S3
  }

  /** resolveEngine */
  function ResolveEngine(d: Deployment, backend: Backend): Backend {
    if backend == Local && d == S3WithLocal then Local else MainEngine(d)
  }

  /** The deployment has an engine for files stored by that backend. */
  predicate Served(d: Deployment, backend: Backend) {
    if backend == Local then d != S3Only else d != LocalOnly
  }

  lemma ServedIsResolved(d: Deployment, backend: Backend)
    ensures Served(d, backend) <==> ResolveEngine(d, backend) == backend
  {}
}
