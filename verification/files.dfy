/** A file chosen in a browser file input, as the editors see it. */
module Files {
  /** A chosen file: its name, MIME type and size in bytes. */
  datatype File = File(name: string, mime: string, size: nat)
}
