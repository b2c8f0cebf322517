/** One analysed tag of an image, as the registry scanner produces it
    (`ImageData` in internal/registry/registry.go). */
module ImageRecords {
  /** Go's `uint64`. */
  type Uint64 = n: int | 0 <= n < 0x1_0000_0000_0000_0000

  /** `LastPush` is the push instant as an integer count of time units; only its order
      matters here. `SizeMiB` is carried as a real and only ever formatted. */
  datatype ImageData = ImageData(
    version: string,
    sizeMiB: real,
    lastPush: int,
    major: Uint64,
    minor: Uint64,
    patch: Uint64,
    prerelease: string)

  /** The sort key of the timestamp sort. */
  function PushTime(d: ImageData): int
  {
    d.lastPush
  }

  /** Every version field is zero and the pre-release label is empty: the record of a
      tag that does not parse as a version, or of 0.0.0. */
  predicate IsZeroVersion(d: ImageData)
  {
    d.major == 0 && d.minor == 0 && d.patch == 0 && d.prerelease == ""
  }
}
