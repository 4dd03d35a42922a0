/** `WhisperTranscriptionTool.forward`: refuse a path that is not a regular
    file, otherwise send the file to the transcription service and return the
    `text` field of its response. */
module WhisperTranscriptionTool {
  import opened Environment

  const NotFoundPrefix := "File not found: "
  const ErrorPrefix := "Whisper error: "

  /** The service's response, as the key/value pairs `resp.get` looks up. */
  type Response = map<string, string>

  /** `WhisperTranscriptionTool.forward(audio_file)`; `transcribe` stands for
      opening the file and calling `openai.Audio.transcribe("whisper-1", f)`.
      For a path that is not a regular file the result is fixed before
      `transcribe` is consulted, so it is the same for every service. */
  function Forward(audioFile: string, fs: FileSystem, transcribe: string -> Outcome<Response>): (r: string)
    ensures !IsFile(fs, audioFile) ==> r == NotFoundPrefix + audioFile
    ensures IsFile(fs, audioFile) && transcribe(audioFile).Raised? ==>
              r == ErrorPrefix + transcribe(audioFile).msg
    ensures IsFile(fs, audioFile) && transcribe(audioFile).Done? ==>
              var response := transcribe(audioFile).value;
              ("text" in response ==> r == response["text"]) && ("text" !in response ==> r == "")
  {
    if !IsFile(fs, audioFile) then NotFoundPrefix + audioFile
    else
      match transcribe(audioFile)
      case Raised(msg) => ErrorPrefix + msg
      case Done(response) => if "text" in response then response["text"] else ""
  }

  /** A missing file is reported without the service being asked: any two
      services give the same answer. */
  lemma MissingFileIgnoresService(audioFile: string, fs: FileSystem,
                                  t1: string -> Outcome<Response>, t2: string -> Outcome<Response>)
    requires !IsFile(fs, audioFile)
    ensures Forward(audioFile, fs, t1) == Forward(audioFile, fs, t2) == NotFoundPrefix + audioFile
  {
  }

  /** A directory is not a file to this tool, even though it exists. */
  lemma DirectoryIsNotFound(audioFile: string, fs: FileSystem, transcribe: string -> Outcome<Response>)
    requires audioFile in fs && fs[audioFile] == Directory
    ensures Exists(fs, audioFile)
    ensures Forward(audioFile, fs, transcribe) == NotFoundPrefix + audioFile
  {
  }

  /** The smoke script's long audio file, when absent. */
  lemma MissingSampleFile(fs: FileSystem, transcribe: string -> Outcome<Response>)
    requires "sample_long.mp3" !in fs
    ensures Forward("sample_long.mp3", fs, transcribe) == "File not found: sample_long.mp3"
  {
  }
}
