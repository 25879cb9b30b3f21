/** The media folder and the library helpers `src/media.rs` calls on it (the
    anki crate's file functions, zip and JSON decoding), kept abstract. */
module MediaFiles {
  import opened Base

  /** The media folder: file name to contents. */
  type Folder = map<string, Bytes>

  type Digest20 = s: Bytes | |s| == 20
    witness [0, 0, 0, 0, 0, 0, 0, 0, 0, 0, 0, 0, 0, 0, 0, 0, 0, 0, 0, 0]

  /** `normalize_filename`: `Cow::Borrowed` when the name is already in
      normal form, `Cow::Owned` with the normalised name otherwise. */
  datatype Normalized = Borrowed | Owned(name: string)

  /** An entry of a zip archive: its name and its uncompressed bytes. */
  type ZipEntry = (string, Bytes)

  /** An upload manifest line: file name and its id in the archive, or
      none (or "") for a file the client deleted. */
  type ManifestEntry = (string, Option<string>)

  /** The helpers, each an uninterpreted function:
      `sha1` is `sha1_of_data`; `normalize` is `normalize_filename`;
      `addUniquely` is the name under which `add_data_to_folder_uniquely`
      stores the data; `unreadable` says `data_for_file` fails with an I/O
      error other than a missing file; `unzip` lists an archive's entries
      (`None`: not a zip); the `decode*` functions are the JSON decoders of
      the request bodies (`None`: malformed). */
  datatype MediaLib = MediaLib(
    sha1: Bytes -> Digest20,
    normalize: string -> Normalized,
    addUniquely: (Folder, string, Bytes, Digest20) -> string,
    unreadable: (Folder, string) -> bool,
    unzip: Bytes -> Option<seq<ZipEntry>>,
    decodeManifest: Bytes -> Option<seq<ManifestEntry>>,
    decodeLastUsn: Bytes -> Option<int>,
    decodeLocal: Bytes -> Option<nat>,
    decodeFiles: Bytes -> Option<seq<string>>)

  /** `normalize_filename(..).to_string()`. */
  function NormalizedName(lib: MediaLib, fname: string): string
  {
    match lib.normalize(fname)
    case Borrowed => fname
    case Owned(n) => n
  }

  /** `SYNC_MAX_BYTES`, 2.5 MiB. */
  const SYNC_MAX_BYTES: nat := 2621440
  /** `SYNC_SINGLE_FILE_MAX_BYTES`, 100 MiB. */
  const SYNC_SINGLE_FILE_MAX_BYTES: nat := 104857600
  /** The name of the manifest entry in both directions of the zip traffic. */
  const META := "_meta"
}
