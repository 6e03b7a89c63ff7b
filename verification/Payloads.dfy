/** Packages to download, and what is downloaded for them (dnf/repo.py, dnf/drpm.py). */
module Payloads {
  import opened Wrappers

  /** A package and its `downloadsize`; `id` tells packages apart. */
  datatype Package = Package(id: nat, size: nat)

  /** A delta and its `downloadsize`; `id` tells deltas apart. */
  datatype Delta = Delta(id: nat, size: nat)

  /** The package's rpm file, or a delta from which it is rebuilt. */
  datatype Payload = RpmPayload(pkg: Package) | DeltaPayload(pkg: Package, delta: Delta)

  /** `download_size`. */
  function DownloadSize(p: Payload): nat {
    match p
    case RpmPayload(pkg) => pkg.size
    case DeltaPayload(_, delta) => delta.size
  }

  /** `_full_size`. */
  function FullSize(p: Payload): nat {
    p.pkg.size
  }
}
