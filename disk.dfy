/** The part of the file system the core reads and replaces, as a map from path to contents. */
module Disk {
  import opened Outcomes

  /** The system hosts file. */
  const HostsPath := "/etc/hosts"

  /** Where the flat hosts editor stages the new hosts file before the privileged copy. */
  const StagedHostsPath := "/tmp/hosts"

  /** The result of a call that may replace files, and the files afterwards. */
  datatype Outcome = Outcome(result: Result<bool>, files: map<string, string>)

  /**
   * The files the core can see. Every read of the source is a lookup in `files`,
   * every `writeFile` an update of one key and every `rmSync` a removal of one key.
   */
  class FileSystem {
    var files: map<string, string>

    constructor (files: map<string, string>)
      ensures this.files == files
    {
      this.files := files;
    }
  }
}
