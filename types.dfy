/** The shared records of the extension: a located version occurrence and the kind of bump. */
module Types {
  import opened Wrappers

  /** `VersionBumpType`: 'major' | 'minor' | 'patch'. */
  datatype BumpKind = Major | Minor | Patch

  /** A zero-based (line, character) position in a document. */
  datatype Position = Position(line: nat, character: nat)

  /** A span between two positions; the end is exclusive. */
  datatype Range = Range(start: Position, end: Position)

  /**
    A located version string: the captured text, its parsed components
    (the prerelease tag only when present), its range, its line and the
    whole text the pattern matched around it.
  */
  datatype VersionMatch = VersionMatch(
    version: string,
    major: nat,
    minor: nat,
    patch: nat,
    prerelease: Option<string>,
    range: Range,
    line: nat,
    fullMatch: string)
}
