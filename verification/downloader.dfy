/**
 `Downloader.download_any_file`: compose the tile's URL and cache path, return
 the cached copy when present, otherwise request it, write it, unpack zip
 archives and return the path of the expected data file. The file system is a
 set of paths; the network and the archive are oracle outcomes.
 */
module Downloader {
  import opened Wrappers
  import opened Text

  /** The per-state entry of the configuration file. */
  datatype StateConfig = StateConfig(
    stateName: string,
    epsg: string,
    baseUrl: string,
    sourceExt: string,
    dataFileExt: string)

  /** The cache directory every download goes to. */
  const DownloadDir: string := "downloaded_files"

  /** `os.path.join(dir, name)` on POSIX: an absolute `name` replaces `dir`;
      otherwise a `/` is inserted unless `dir` is empty or already ends in one. */
  function JoinPath(dir: string, name: string): (p: string)
    ensures |name| > 0 && name[0] == '/' ==> p == name
    ensures (|name| == 0 || name[0] != '/') && |dir| > 0 && dir[|dir| - 1] != '/' ==> p == dir + "/" + name
  {
    if |name| > 0 && name[0] == '/' then name
    else if |dir| == 0 || dir[|dir| - 1] == '/' then dir + name
    else dir + "/" + name
  }

  /** Where `file_name` is cached. */
  function LocalPath(fileName: string): (p: string)
    ensures |fileName| > 0 && fileName[0] == '/' ==> p == fileName
    ensures (|fileName| == 0 || fileName[0] != '/') ==> p == DownloadDir + "/" + fileName
  {
    JoinPath(DownloadDir, fileName)
  }

  /** Where `file_name` is fetched from. */
  function Url(cfg: StateConfig, fileName: string): (u: string)
    ensures |u| == |cfg.baseUrl| + |fileName|
    ensures u[..|cfg.baseUrl|] == cfg.baseUrl && u[|cfg.baseUrl|..] == fileName
  {
    cfg.baseUrl + fileName
  }

  /** The path handed back: for zip sources the text before the first `.` of the
      local path with the data-file extension appended, otherwise the local path. */
  function DataFilePath(cfg: StateConfig, localPath: string): (p: string)
    ensures cfg.sourceExt != "zip" ==> p == localPath
    ensures cfg.sourceExt == "zip" ==>
      && |p| > |cfg.dataFileExt|
      && var k := |p| - |cfg.dataFileExt| - 1;
      && p[k..] == "." + cfg.dataFileExt
      && k <= |localPath| && p[..k] == localPath[..k] && '.' !in p[..k]
      && (k == |localPath| || localPath[k] == '.')
  {
    if cfg.sourceExt == "zip" then BeforeFirst(localPath, '.') + "." + cfg.dataFileExt else localPath
  }

  /** What the network did on a cache miss: `requests.get(...)` and `raise_for_status()`
      succeeded and the body was streamed into the local file; the request itself
      failed (caught, `None` returned); or the request succeeded but streaming the
      body raised after `open(local_file_path, 'wb')` had created the file (not caught). */
  datatype Transfer = Delivered | RequestFailed | BodyFailed

  /** What `zipfile.ZipFile(...).extractall(...)` did: the member names it wrote, or a
      bad archive. The names are those `extractall` writes after cleaning each member
      (leading `/` and empty, `.` and `..` parts dropped), so they are relative. */
  datatype Unzip = Extracted(members: set<string>) | BadZip

  /** The result of one call: the returned path (`None` on a failed request), whether
      the call raised while streaming the body, the file set afterwards, and the URL
      requested, if any. */
  datatype Download = Download(path: Option<string>, raised: bool, files: set<string>, request: Option<string>)

  /** `extract_zip_file`: the members land in the cache directory; a bad archive is logged and ignored. */
  function ExtractZip(files: set<string>, unzip: Unzip): (after: set<string>)
    ensures files <= after
    ensures unzip.BadZip? ==> after == files
    ensures forall p :: p in after - files ==> |p| > |DownloadDir| && p[..|DownloadDir| + 1] == DownloadDir + "/"
    ensures unzip.Extracted? ==> forall m :: m in unzip.members ==> DownloadDir + "/" + m in after
  {
    match unzip
    case Extracted(members) => files + set m | m in members :: DownloadDir + "/" + m
    case BadZip => files
  }

  function DownloadAnyFile(cfg: StateConfig, fileName: string, files: set<string>,
                           transfer: Transfer, unzip: Unzip): (d: Download)
    // A request is made exactly when the cache misses, and it is for base URL + name.
    ensures d.request.Some? <==> LocalPath(fileName) !in files
    ensures d.request.Some? ==> d.request.value == Url(cfg, fileName)
    // No path comes back exactly when the cache misses and the transfer does not deliver.
    ensures d.path.None? <==> LocalPath(fileName) !in files && !transfer.Delivered?
    // A failed request is caught: `None` is returned and nothing is written.
    ensures d.path.None? && !d.raised ==> d.files == files
    // A body that fails mid-stream raises and leaves the (truncated) local file behind.
    ensures d.raised <==> LocalPath(fileName) !in files && transfer.BodyFailed?
    ensures d.raised ==> d.path.None? && d.files == files + {LocalPath(fileName)}
    // Otherwise the result is the (rewritten) local path, and the local file exists.
    ensures d.path.Some? ==> d.path.value == DataFilePath(cfg, LocalPath(fileName))
    ensures d.path.Some? ==> LocalPath(fileName) in d.files
    // Files are only ever added: a cache hit writes nothing, and a download writes
    // only the local file and, for a delivered zip, members under the cache directory.
    ensures files <= d.files
    ensures LocalPath(fileName) in files ==> d.files == files
    ensures forall p :: p in d.files - files ==>
      || p == LocalPath(fileName)
      || (cfg.sourceExt == "zip" && transfer.Delivered? && |p| > |DownloadDir| && p[..|DownloadDir| + 1] == DownloadDir + "/")
  {
    var url := Url(cfg, fileName);
    var localPath := LocalPath(fileName);
    if localPath in files then
      Download(Some(DataFilePath(cfg, localPath)), false, files, None)
    else
      match transfer
      case RequestFailed => Download(None, false, files, Some(url))
      case BodyFailed => Download(None, true, files + {localPath}, Some(url))
      case Delivered =>
        var written := files + {localPath};
        var after := if cfg.sourceExt == "zip" then ExtractZip(written, unzip) else written;
        Download(Some(DataFilePath(cfg, localPath)), false, after, Some(url))
  }

  /** After a call that raised mid-stream, the truncated file is taken for a cached
      tile: the next call makes no request and returns its path, whatever the network does. */
  lemma TruncatedFileIsCacheHit(cfg: StateConfig, fileName: string, files: set<string>,
                                unzip: Unzip, transfer2: Transfer, unzip2: Unzip)
    requires LocalPath(fileName) !in files
    ensures var first := DownloadAnyFile(cfg, fileName, files, BodyFailed, unzip);
      var second := DownloadAnyFile(cfg, fileName, first.files, transfer2, unzip2);
      && first.raised
      && second.request.None? && !second.raised
      && second.path == Some(DataFilePath(cfg, LocalPath(fileName)))
      && second.files == files + {LocalPath(fileName)}
  {
  }

  /** A cache hit returns the very path a fresh download of the same name returns. */
  lemma CacheHitMatchesFreshDownload(cfg: StateConfig, fileName: string, cached: set<string>,
                                     empty: set<string>, unzip: Unzip)
    requires LocalPath(fileName) in cached && LocalPath(fileName) !in empty
    ensures DownloadAnyFile(cfg, fileName, cached, RequestFailed, unzip).path
         == DownloadAnyFile(cfg, fileName, empty, Delivered, unzip).path
    ensures DownloadAnyFile(cfg, fileName, cached, RequestFailed, unzip).request.None?
  {
  }

  /** After a successful call a repeated call makes no request, returns the same
      path and changes nothing, whatever the network or archive would do. */
  lemma DownloadIdempotent(cfg: StateConfig, fileName: string, files: set<string>,
                           transfer: Transfer, unzip: Unzip, transfer2: Transfer, unzip2: Unzip)
    requires DownloadAnyFile(cfg, fileName, files, transfer, unzip).path.Some?
    ensures var first := DownloadAnyFile(cfg, fileName, files, transfer, unzip);
      var second := DownloadAnyFile(cfg, fileName, first.files, transfer2, unzip2);
      second.request.None? && second.path == first.path && second.files == first.files
  {
  }

  /** A bad archive is swallowed: the rewritten data-file path is still returned
      and only the archive itself was added to the file set. */
  lemma BadZipStillReturnsDataPath(cfg: StateConfig, fileName: string, files: set<string>)
    requires cfg.sourceExt == "zip" && LocalPath(fileName) !in files
    ensures var d := DownloadAnyFile(cfg, fileName, files, Delivered, BadZip);
      d.path == Some(BeforeFirst(LocalPath(fileName), '.') + "." + cfg.dataFileExt)
      && d.files == files + {LocalPath(fileName)}
  {
  }

  /** For a relative name the local path is the name inside the cache directory,
      and the zip rewrite keeps the directory and the name up to its first `.`. */
  lemma LocalPathOfRelativeName(cfg: StateConfig, fileName: string)
    requires |fileName| == 0 || fileName[0] != '/'
    ensures LocalPath(fileName) == DownloadDir + "/" + fileName
    ensures cfg.sourceExt == "zip" ==>
      DataFilePath(cfg, LocalPath(fileName)) == DownloadDir + "/" + BeforeFirst(fileName, '.') + "." + cfg.dataFileExt
    ensures cfg.sourceExt != "zip" ==> DataFilePath(cfg, LocalPath(fileName)) == LocalPath(fileName)
  {
    var dir := DownloadDir + "/";
    assert '.' !in dir;
    BeforeFirstAppend(dir, '.', fileName);
    assert DownloadDir + "/" + fileName == dir + fileName;
  }

  /** A zip source's returned path splits on `.` into the stem and the data-file
      extension (an extension without a `.` of its own). */
  lemma ZipDataPathShape(cfg: StateConfig, localPath: string)
    requires cfg.sourceExt == "zip" && '.' !in cfg.dataFileExt
    ensures Split(DataFilePath(cfg, localPath), '.') == [BeforeFirst(localPath, '.'), cfg.dataFileExt]
  {
    var stem := BeforeFirst(localPath, '.');
    SplitNoSeparator(cfg.dataFileExt, '.');
    SplitConcat(stem, '.', cfg.dataFileExt);
    assert stem + "." + cfg.dataFileExt == stem + ['.'] + cfg.dataFileExt;
  }
}
