/**
 The pure part of ingestion (`fetchData` and `fetchPhotos` in main.go): how a
 fetched project becomes a stored record, and under which name its photo is
 written. Both names come from `getFilename` of the same source URL, so the
 record's `filename` field is the name of its photo file in the photo
 directory (served under `/imgs/`).
 */
module Ingest {
  import opened Records
  import opened Filenames

  /** The decoded project detail: its name, its description, and the cover
      URL stored under the "original" key. */
  datatype ProjectParsed = ProjectParsed(title: string, description: string, original: string)

  /** The record `fetchData` builds for a project. The id is left zero; the
      store assigns it on save. */
  function MakeRecord(p: ProjectParsed): (d: Data)
    ensures d.id == 0
    ensures d.title == p.title && d.description == p.description && d.src == p.original
    ensures IsLastSegment(d.src, d.filename)
  {
    GetFilenameIsLastSegment(p.original);
    Data(0, p.title, p.description, FilenameOf(p.original), p.original)
  }

  /** The name `fetchPhotos` passes to `filepath.Join` for the downloaded
      bytes of `src`: the last segment of the URL, free of `/`. */
  function PhotoFileName(src: string): (name: string)
    ensures Slash !in name
    ensures IsLastSegment(src, name)
  {
    GetFilenameIsLastSegment(src);
    FilenameOf(src)
  }

  /** The database entry and the photo file agree: the record's filename is
      the name its photo is written under. */
  lemma RecordNamesItsPhoto(p: ProjectParsed)
    ensures MakeRecord(p).filename == PhotoFileName(MakeRecord(p).src)
  {
  }
}
