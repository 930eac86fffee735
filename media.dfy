/** The `media` audio folder both scripts write into, seen as the set of
    file names it holds, together with the log of the calls that put files
    there (an HTTP download or a text-to-speech synthesis). `os.path.exists`
    is membership in `files`. */
module Media {

  /** One call to the outside world that writes into the folder. */
  datatype Call =
    | Downloaded(url: string, ok: bool)     // requests.get of an .mp3 URL and, on success, the write
    | Synthesized(text: string, file: string)  // edge-tts speaking `text` into `file`

  class MediaDir {
    var files: set<string>
    var calls: seq<Call>

    /** The folder as found at start-up, before either script writes to it. */
    constructor (existing: set<string>)
      ensures files == existing && calls == []
    {
      files := existing;
      calls := [];
    }

    /** `os.path.exists(os.path.join(MEDIA_DIR, name))`. */
    predicate Has(name: string)
      reads this
    {
      name in files
    }

    /** Downloads `url` into `name`. `transferred` is the outcome of the HTTP
        GET and the write, which lie outside the model: on success the file
        appears, on failure the folder is unchanged. Either way the attempt
        is logged. */
    method Download(url: string, name: string, transferred: bool) returns (ok: bool)
      modifies this
      ensures ok == transferred
      ensures files == if ok then old(files) + {name} else old(files)
      ensures calls == old(calls) + [Downloaded(url, ok)]
    {
      ok := transferred;
      if ok {
        files := files + {name};
      }
      calls := calls + [Downloaded(url, ok)];
    }

    /** `asyncio.run(tts_save(text, path))`: synthesizes speech for `text`
        into `name`. */
    method Synthesize(text: string, name: string)
      modifies this
      ensures files == old(files) + {name}
      ensures calls == old(calls) + [Synthesized(text, name)]
    {
      files := files + {name};
      calls := calls + [Synthesized(text, name)];
    }
  }
}
