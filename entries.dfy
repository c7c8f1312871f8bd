/** The record the index keeps for each note (`IndexEntry` in
    internal/notes/notes.go). */
module Entries {
  import opened Timestamps

  datatype IndexEntry = IndexEntry(id: string, title: string, path: string, createdOn: Timestamp)
}
