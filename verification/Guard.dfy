/**
 A mark that predicates put in front of their contents, so that a proof sees the contents of a part
 only where it names the part. The mark itself is always true.
 */
module Guard {

  datatype Part =
    Statics | Labels | Owners | Targets | Comps | Books | Drawing | Distances | Continuity | Cache | Roads | Jumps | Reach
    | Choice
    | Sweeping | Gathered | Memo | Entries | Zoning

  ghost predicate Recall(part: Part, k: int) {
    true
  }
}
