/**
 * What an incoming update carries: the sender (`ctx.from`) and the message the router sees
 * (`text`, `photo` or `document`). JavaScript truthiness decides which part the handlers use.
 */
module Inbound {
  import opened Wrappers
  import opened Ids

  /** `ctx.from`. */
  datatype Sender = Sender(id: TgId, username: Option<string>, firstName: Option<string>, lastName: Option<string>)

  /** A photo carries its sizes, smallest first; a document its file id and optional MIME type. */
  datatype Payload =
    | Text(text: string)
    | Photo(sizes: seq<FileId>)
    | Document(fileId: FileId, mimeType: Option<string>)

  /** `ctx.message.text` when it is truthy. */
  function TextOf(p: Payload): (t: Option<string>)
    ensures t.Some? <==> p.Text? && p.text != ""
    ensures t.Some? ==> t.value == p.text
  {
    if p.Text? && p.text != "" then Some(p.text) else None
  }

  /** `photo[photo.length - 1].file_id` (the largest size) when `photo?.length` is truthy. */
  function PhotoOf(p: Payload): (f: Option<FileId>)
    ensures f.Some? <==> p.Photo? && |p.sizes| > 0
    ensures f.Some? ==> f.value == p.sizes[|p.sizes| - 1]
  {
    if p.Photo? && |p.sizes| > 0 then Some(p.sizes[|p.sizes| - 1]) else None
  }

  /** `document.file_id` when it is truthy. */
  function DocumentOf(p: Payload): (f: Option<FileId>)
    ensures f.Some? <==> p.Document? && p.fileId != ""
    ensures f.Some? ==> f.value == p.fileId
  {
    if p.Document? && p.fileId != "" then Some(p.fileId) else None
  }
}
