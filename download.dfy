/** The download branch of the view: a fresh temporary directory, the two stream downloads,
    the muxed output, the response, and the removal of the directory on every way out. */
module Download {
  import opened Wrappers
  import opened Naming
  import opened Delivery

  /** A stream pytube's `.first()` returned: what its `download` saves, or `None` when the
      download raises. */
  datatype Stream = Stream(saves: Option<seq<bv8>>)

  /** What `subprocess.run` does with the ffmpeg command: it raises without starting ffmpeg
      (no such program, say), or ffmpeg runs to an exit status. `stdoutUtf8` and `stderrUtf8`
      say whether the captured output and error streams are valid UTF-8; `output` is the file
      ffmpeg wrote, if any. */
  datatype FfmpegRun =
    | NotStarted
    | Exited(status: int, stdoutUtf8: bool, stderrUtf8: bool, output: Option<seq<bv8>>)

  /** The `.decode()` of lines 78 and 80 succeeds: the error stream after a non-zero exit
      status, the output stream otherwise. */
  predicate LogDecodes(run: FfmpegRun)
    requires run.Exited?
  {
    if run.status != 0 then run.stderrUtf8 else run.stdoutUtf8
  }

  /** The exception that leaves the `try` block early. */
  datatype Failure =
    | NoVideoStream         // `.first()` found no video stream: `None.download` raises
    | VideoDownloadFailed   // the video download raised
    | NoAudioStream
    | AudioDownloadFailed
    | FfmpegNotStarted      // `subprocess.run` raised
    | LogNotUtf8            // the printed stream is not UTF-8: `UnicodeDecodeError`
    | OutputMissing         // `os.path.getsize` on an output ffmpeg did not write

  /** The files the view touches: live directories and regular files by path. */
  class FileSystem {
    var dirs: set<string>
    var files: map<string, seq<bv8>>

    constructor (dirs: set<string>, files: map<string, seq<bv8>>)
      ensures this.dirs == dirs && this.files == files
    {
      this.dirs := dirs;
      this.files := files;
    }

    /** `tempfile.mkdtemp()`, with the fresh name it picks given: a new empty directory. */
    method Mkdtemp(name: string) returns (dir: string)
      requires name !in dirs
      modifies this
      ensures dir == name
      ensures dirs == old(dirs) + {name} && files == old(files)
    {
      dirs := dirs + {name};
      dir := name;
    }

    /** Writing `contents` to `path`, replacing what was there. */
    method WriteFile(path: string, contents: seq<bv8>)
      modifies this
      ensures files == old(files)[path := contents] && dirs == old(dirs)
    {
      files := files[path := contents];
    }

    /** `os.path.getsize(path)`, or `None` where it raises because there is no such file. */
    method GetSize(path: string) returns (size: Option<nat>)
      ensures size == if path in files then Some(|files[path]|) else None
    {
      if path in files {
        size := Some(|files[path]|);
      } else {
        size := None;
      }
    }

    /** `shutil.rmtree(dir)`: the directory and every directory and file below it are gone. */
    method Rmtree(dir: string)
      modifies this
      ensures dirs == set d | d in old(dirs) && d != dir && !Within(d, dir)
      ensures files == map p | p in old(files) && !Within(p, dir) :: old(files)[p]
    {
      dirs := set d | d in dirs && d != dir && !Within(d, dir);
      files := map p | p in files && !Within(p, dir) :: files[p];
    }
  }

  /** Nothing outside `dir` differs between the two file maps. */
  ghost predicate SameOutside(files: map<string, seq<bv8>>, files0: map<string, seq<bv8>>, dir: string) {
    forall p | !Within(p, dir) :: (p in files <==> p in files0) && (p in files ==> files[p] == files0[p])
  }

  /** Removing a fresh directory, and everything below it, from the set it was added to
      gives the set back, when nothing else lay below it. */
  lemma RemoveFreshDir(dirs: set<string>, dir: string)
    requires dir !in dirs && forall d | d in dirs :: !Within(d, dir)
    ensures (set d | d in dirs + {dir} && d != dir && !Within(d, dir)) == dirs
  {
  }

  /** The stream exists and its download saves a file. */
  predicate Saved(stream: Option<Stream>) {
    stream.Some? && stream.value.saves.Some?
  }

  /** ffmpeg runs and writes its output file. */
  predicate Muxed(ffmpeg: FfmpegRun) {
    ffmpeg.Exited? && ffmpeg.output.Some?
  }

  /** Removing everything below `dir` from a file map that differs from `files0` only below
      `dir` gives `files0` back, when nothing in `files0` lay below `dir`. */
  lemma RemoveTmpFiles(files: map<string, seq<bv8>>, files0: map<string, seq<bv8>>, dir: string)
    requires SameOutside(files, files0, dir)
    requires forall p | p in files0 :: !Within(p, dir)
    ensures (map p | p in files && !Within(p, dir) :: files[p]) == files0
  {
  }

  /** A download succeeds exactly when both streams exist and download, ffmpeg runs, the
      stream the view prints decodes, and ffmpeg wrote its output; its exit status as such
      does not matter. */
  predicate Succeeds(video: Option<Stream>, audio: Option<Stream>, ffmpeg: FfmpegRun) {
    Saved(video) && Saved(audio) && Muxed(ffmpeg) && LogDecodes(ffmpeg)
  }

  /** The exception the `try` block raises, in the order the view meets them. */
  function FailureOf(video: Option<Stream>, audio: Option<Stream>, ffmpeg: FfmpegRun): (f: Failure)
    requires !Succeeds(video, audio, ffmpeg)
  {
    if video.None? then NoVideoStream
    else if video.value.saves.None? then VideoDownloadFailed
    else if audio.None? then NoAudioStream
    else if audio.value.saves.None? then AudioDownloadFailed
    else if ffmpeg.NotStarted? then FfmpegNotStarted
    else if !LogDecodes(ffmpeg) then LogNotUtf8
    else OutputMissing
  }

  /** The three paths the `try` block writes, lines 62, 67 and 72 of the view: distinct,
      and each below the temporary directory. */
  lemma TmpPaths(tmpdir: string, digest: string)
    requires tmpdir != [] && tmpdir[|tmpdir| - 1] != '/'
    ensures Within(Join(tmpdir, VideoFilename), tmpdir) && Within(Join(tmpdir, AudioFilename), tmpdir)
    ensures Within(Join(tmpdir, OutputFilename(digest)), tmpdir)
    ensures Join(tmpdir, VideoFilename) != Join(tmpdir, AudioFilename)
    ensures Join(tmpdir, VideoFilename) != Join(tmpdir, OutputFilename(digest))
    ensures Join(tmpdir, AudioFilename) != Join(tmpdir, OutputFilename(digest))
  {
    JoinWithin(tmpdir, VideoFilename);
    JoinWithin(tmpdir, AudioFilename);
    JoinWithin(tmpdir, OutputFilename(digest));
    assert VideoFilename[0] != OutputFilename(digest)[0];
    assert AudioFilename[0] != OutputFilename(digest)[0];
    assert VideoFilename[0] != AudioFilename[0];
    JoinDistinct(tmpdir, VideoFilename, AudioFilename);
    JoinDistinct(tmpdir, VideoFilename, OutputFilename(digest));
    JoinDistinct(tmpdir, AudioFilename, OutputFilename(digest));
  }

  /** Lines 60-67 of the view: the video stream downloads to `videoPath`, then the audio
      stream to `audioPath`; the first missing stream or failed download raises, and what was
      saved before it stays saved. */
  method SaveStreams(fs: FileSystem, videoPath: string, audioPath: string,
                     video: Option<Stream>, audio: Option<Stream>)
    returns (failure: Option<Failure>)
    modifies fs
    ensures fs.dirs == old(fs.dirs)
    ensures fs.files == if !Saved(video) then old(fs.files)
      else if !Saved(audio) then old(fs.files)[videoPath := video.value.saves.value]
      else old(fs.files)[videoPath := video.value.saves.value][audioPath := audio.value.saves.value]
    ensures failure.None? <==> Saved(video) && Saved(audio)
    ensures failure.Some? ==>
      failure.value == (if video.None? then NoVideoStream
                        else if video.value.saves.None? then VideoDownloadFailed
                        else if audio.None? then NoAudioStream
                        else AudioDownloadFailed)
  {
    if video.None? {
      return Some(NoVideoStream);
    } else if video.value.saves.None? {
      return Some(VideoDownloadFailed);
    }
    fs.WriteFile(videoPath, video.value.saves.value);
    if audio.None? {
      return Some(NoAudioStream);
    } else if audio.value.saves.None? {
      return Some(AudioDownloadFailed);
    }
    fs.WriteFile(audioPath, audio.value.saves.value);
    return None;
  }

  /** Lines 74-101 of the view: ffmpeg runs (or `subprocess.run` raises), its log is
      printed, decoding the error stream after a non-zero exit status and the output stream
      otherwise, and the size of the output it wrote, if any, goes into the response. The
      exit status matters only through which stream is decoded. */
  method MuxAndRespond(fs: FileSystem, outputPath: string, ffmpeg: FfmpegRun, rangeHeader: Option<string>)
    returns (result: Result<Response, Failure>)
    requires outputPath !in fs.files
    modifies fs
    ensures fs.dirs == old(fs.dirs)
    ensures fs.files == if ffmpeg.Exited? && ffmpeg.output.Some?
      then old(fs.files)[outputPath := ffmpeg.output.value] else old(fs.files)
    ensures result.Success? <==> ffmpeg.Exited? && LogDecodes(ffmpeg) && ffmpeg.output.Some?
    ensures result.Failure? ==>
      result.error == (if ffmpeg.NotStarted? then FfmpegNotStarted
                       else if !LogDecodes(ffmpeg) then LogNotUtf8
                       else OutputMissing)
    ensures result.Success? ==>
      result.value.status == Ok
      && FullDownloadHeaders(result.value.headers, |ffmpeg.output.value|)
      && ContentRange !in result.value.headers
  {
    if ffmpeg.NotStarted? {
      return Failure(FfmpegNotStarted);
    }
    if ffmpeg.output.Some? {
      fs.WriteFile(outputPath, ffmpeg.output.value);
    }
    if !LogDecodes(ffmpeg) {
      return Failure(LogNotUtf8);
    }
    var size := fs.GetSize(outputPath);
    if size.None? {
      return Failure(OutputMissing);
    }
    var response := Respond(rangeHeader, size.value);
    return Success(response);
  }

  /** The files once the `try` block is left, starting from `files0`: the saved video at
      `videoPath`, then the saved audio at `audioPath`, then the output ffmpeg wrote at
      `outputPath`, as far as the block got. */
  ghost function FilesAfterTry(files0: map<string, seq<bv8>>, videoPath: string, audioPath: string,
                               outputPath: string, video: Option<Stream>, audio: Option<Stream>,
                               ffmpeg: FfmpegRun): map<string, seq<bv8>>
  {
    if !Saved(video) then files0
    else if !Saved(audio) then files0[videoPath := video.value.saves.value]
    else if !Muxed(ffmpeg) then files0[videoPath := video.value.saves.value][audioPath := audio.value.saves.value]
    else files0[videoPath := video.value.saves.value][audioPath := audio.value.saves.value][outputPath := ffmpeg.output.value]
  }

  /** When the three paths are distinct and below `tmpdir`, and nothing lay below `tmpdir`
      before, the `try` block leaves below it the saved video, the saved audio once the video
      was saved, the output once both were saved and ffmpeg wrote it, and nothing else;
      nothing outside it changes. */
  lemma FilesAfterTryContents(files0: map<string, seq<bv8>>, tmpdir: string, videoPath: string,
                              audioPath: string, outputPath: string, video: Option<Stream>,
                              audio: Option<Stream>, ffmpeg: FfmpegRun)
    requires Within(videoPath, tmpdir) && Within(audioPath, tmpdir) && Within(outputPath, tmpdir)
    requires videoPath != audioPath && videoPath != outputPath && audioPath != outputPath
    requires forall p | p in files0 :: !Within(p, tmpdir)
    ensures var files := FilesAfterTry(files0, videoPath, audioPath, outputPath, video, audio, ffmpeg);
      SameOutside(files, files0, tmpdir)
    ensures var files := FilesAfterTry(files0, videoPath, audioPath, outputPath, video, audio, ffmpeg);
      Saved(video) ==> videoPath in files && files[videoPath] == video.value.saves.value
    ensures var files := FilesAfterTry(files0, videoPath, audioPath, outputPath, video, audio, ffmpeg);
      Saved(video) && Saved(audio) ==> audioPath in files && files[audioPath] == audio.value.saves.value
    ensures var files := FilesAfterTry(files0, videoPath, audioPath, outputPath, video, audio, ffmpeg);
      Saved(video) && Saved(audio) && Muxed(ffmpeg) ==>
        outputPath in files && files[outputPath] == ffmpeg.output.value
    ensures var files := FilesAfterTry(files0, videoPath, audioPath, outputPath, video, audio, ffmpeg);
      forall p | p in files && Within(p, tmpdir) ::
        (p == videoPath && Saved(video))
        || (p == audioPath && Saved(video) && Saved(audio))
        || (p == outputPath && Saved(video) && Saved(audio) && Muxed(ffmpeg))
  {
  }

  /** Lines 60-101 of the view, the body of the `try` block, in the temporary directory
      `tmpdir`: the two downloads, ffmpeg and the response. Nothing outside `tmpdir` changes;
      inside it lie the saved video, the saved audio once the video was saved, and the
      output ffmpeg wrote once both were saved, and nothing else. The block returns a
      response exactly when every step worked, and its `Content-Length` is the size of the
      output file; otherwise it raises the first exception it meets. */
  method DownloadAndMux(fs: FileSystem, tmpdir: string, video: Option<Stream>, audio: Option<Stream>,
                        digest: string, ffmpeg: FfmpegRun, rangeHeader: Option<string>)
    returns (result: Result<Response, Failure>)
    requires tmpdir in fs.dirs
    requires tmpdir != [] && tmpdir[|tmpdir| - 1] != '/'
    requires forall p | p in fs.files :: !Within(p, tmpdir)
    modifies fs
    ensures fs.dirs == old(fs.dirs)
    ensures fs.files == FilesAfterTry(old(fs.files), Join(tmpdir, VideoFilename), Join(tmpdir, AudioFilename),
                                      Join(tmpdir, OutputFilename(digest)), video, audio, ffmpeg)
    ensures SameOutside(fs.files, old(fs.files), tmpdir)
    ensures var videoPath := Join(tmpdir, VideoFilename);
      Saved(video) ==> videoPath in fs.files && fs.files[videoPath] == video.value.saves.value
    ensures var audioPath := Join(tmpdir, AudioFilename);
      Saved(video) && Saved(audio) ==> audioPath in fs.files && fs.files[audioPath] == audio.value.saves.value
    ensures var outputPath := Join(tmpdir, OutputFilename(digest));
      Saved(video) && Saved(audio) && Muxed(ffmpeg) ==>
        outputPath in fs.files && fs.files[outputPath] == ffmpeg.output.value
    ensures forall p | p in fs.files && Within(p, tmpdir) ::
      (p == Join(tmpdir, VideoFilename) && Saved(video))
      || (p == Join(tmpdir, AudioFilename) && Saved(video) && Saved(audio))
      || (p == Join(tmpdir, OutputFilename(digest)) && Saved(video) && Saved(audio) && Muxed(ffmpeg))
    ensures result.Success? <==> Succeeds(video, audio, ffmpeg)
    ensures result.Failure? ==> result.error == FailureOf(video, audio, ffmpeg)
    ensures result.Success? ==>
      result.value.status == Ok
      && FullDownloadHeaders(result.value.headers, |fs.files[Join(tmpdir, OutputFilename(digest))]|)
      && ContentRange !in result.value.headers
  {
    var videoPath := Join(tmpdir, VideoFilename);
    var audioPath := Join(tmpdir, AudioFilename);
    var outputPath := Join(tmpdir, OutputFilename(digest));
    TmpPaths(tmpdir, digest);
    FilesAfterTryContents(fs.files, tmpdir, videoPath, audioPath, outputPath, video, audio, ffmpeg);
    var failure := SaveStreams(fs, videoPath, audioPath, video, audio);
    if failure.Some? {
      result := Failure(failure.value);
    } else {
      result := MuxAndRespond(fs, outputPath, ffmpeg, rangeHeader);
    }
  }

  /** Lines 58-103 of the view once a resolution has been chosen. `video` and `audio` are the
      streams pytube found, `digest` the hex digest the name is cut from, `ffmpeg` what running
      ffmpeg did, and `rangeHeader` the request's `Range` header. The temporary directory is
      gone on every way out and every other file and directory is as before; the call returns
      a response exactly when every step worked, and that response is a 200 with the
      octet-stream type, the attachment disposition, byte ranges announced, the full size in
      decimal as its length, and no `Content-Range`. */
  method DownloadSelected(fs: FileSystem, tmpName: string, video: Option<Stream>, audio: Option<Stream>,
                          digest: string, ffmpeg: FfmpegRun, rangeHeader: Option<string>)
    returns (result: Result<Response, Failure>)
    requires tmpName != [] && tmpName[|tmpName| - 1] != '/'
    requires tmpName !in fs.dirs
    requires forall d | d in fs.dirs :: !Within(d, tmpName)
    requires forall p | p in fs.files :: !Within(p, tmpName)
    modifies fs
    ensures fs.dirs == old(fs.dirs) && tmpName !in fs.dirs
    ensures fs.files == old(fs.files)
    ensures result.Success? <==> Succeeds(video, audio, ffmpeg)
    ensures result.Failure? ==> result.error == FailureOf(video, audio, ffmpeg)
    ensures result.Success? ==>
      result.value.status == Ok
      && FullDownloadHeaders(result.value.headers, |ffmpeg.output.value|)
      && ContentRange !in result.value.headers
  {
    ghost var dirs0, files0 := fs.dirs, fs.files;
    var tmpdir := fs.Mkdtemp(tmpName);
    // try:
    result := DownloadAndMux(fs, tmpdir, video, audio, digest, ffmpeg, rangeHeader);
    RemoveFreshDir(dirs0, tmpdir);
    RemoveTmpFiles(fs.files, files0, tmpdir);
    // finally:
    fs.Rmtree(tmpdir);
  }
}
