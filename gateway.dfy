/**
 * The side-effecting tail of `generate_audio`: a temporary file is created,
 * the text-to-speech provider saves MP3 audio into it, the file is sent inline
 * as `audio/mpeg`, and a hook run when the response is closed removes it.
 *
 * The temporary directory is modelled by the class `AudioServer`: which
 * temporary files exist and what they hold, the counter that stands for the
 * unique names the temp-file library hands out, and the list of calls made to
 * the provider. The provider itself and the possibility that the temporary
 * file cannot be created are parameters.
 */
module Gateway {
  import opened Text
  import opened Synthesis

  /** The name of a temporary file. */
  type Path = nat

  type Bytes = seq<bv8>

  /**
   * What `gTTS(text=..., lang=...).save(path)` does for one text and language:
   * it writes the whole MP3, or it raises after having written some bytes
   * (possibly none: a rejected language or an empty text raises before writing).
   */
  datatype SaveOutcome = Saved(mp3: Bytes) | Raised(written: Bytes)

  /** The text-to-speech provider, as a function of the text and the language code. */
  type Provider = (string, string) -> SaveOutcome

  const AudioMpeg: string := "audio/mpeg"

  const InternalErrorMessage: string := "Erreur interne du serveur lors de la synthèse vocale."

  /** The three answers of `generate_audio`. */
  datatype AudioResponse =
    | Rejected(message: string)
    | Failed(message: string)
    | Streaming(file: Path, body: Bytes, mimetype: string, asAttachment: bool)

  /** The HTTP status of an answer. */
  function Status(r: AudioResponse): nat
  {
    match r
    case Rejected(_) => 400
    case Failed(_) => 500
    case Streaming(_, _, _, _) => 200
  }

  class AudioServer {
    /** The temporary files on disk and their contents. */
    var disk: map<Path, Bytes>
    /** The next unused temporary name. */
    var nextName: Path
    /** Every (text, language) pair handed to the provider, oldest first. */
    var providerCalls: seq<(string, string)>

    /** Every file on disk got its name before `nextName`, so `nextName` is unused. */
    ghost predicate Valid()
      reads this
    {
      forall p :: p in disk ==> p < nextName
    }

    constructor ()
      ensures Valid()
      ensures disk == map[] && nextName == 0 && providerCalls == []
    {
      disk := map[];
      nextName := 0;
      providerCalls := [];
    }

    /**
     * `generate_audio(lang_code, text_to_speak)`. `tempFileOk` says whether
     * the temporary file can be created.
     */
    method GenerateAudio(langCode: string, textToSpeak: string, tempFileOk: bool, provider: Provider)
      returns (resp: AudioResponse)
      requires Valid()
      modifies this
      ensures Valid()
      // 400 exactly for an unsupported code, 200 exactly when the provider saved the MP3, 500 otherwise.
      ensures Status(resp) == 400 <==> ValidateLanguage(langCode).Failure?
      ensures Status(resp) == 200 <==>
        ValidateLanguage(langCode).Success? && tempFileOk && provider(CleanText(textToSpeak), Lower(langCode)).Saved?
      ensures Status(resp) == 500 <==>
        ValidateLanguage(langCode).Success? && (!tempFileOk || provider(CleanText(textToSpeak), Lower(langCode)).Raised?)
      // An unsupported code is answered 400 before any file or provider call.
      ensures ValidateLanguage(langCode).Failure? ==>
        && resp == Rejected(UnsupportedMessage(ValidateLanguage(langCode).error))
        && disk == old(disk) && nextName == old(nextName) && providerCalls == old(providerCalls)
      // A supported code whose temporary file cannot be created is answered 500 with nothing changed.
      ensures ValidateLanguage(langCode).Success? && !tempFileOk ==>
        && resp == Failed(InternalErrorMessage)
        && disk == old(disk) && nextName == old(nextName) && providerCalls == old(providerCalls)
      // Otherwise one fresh file is created and the provider is called once, on the normalised text.
      ensures ValidateLanguage(langCode).Success? && tempFileOk ==>
        && old(nextName) !in old(disk)
        && nextName == old(nextName) + 1
        && providerCalls == old(providerCalls) + [(CleanText(textToSpeak), Lower(langCode))]
        && match provider(CleanText(textToSpeak), Lower(langCode))
           case Saved(mp3) =>
             && resp == Streaming(old(nextName), mp3, AudioMpeg, false)
             && disk == old(disk)[old(nextName) := mp3]
           case Raised(written) =>
             // The file created for the request stays on disk.
             && resp == Failed(InternalErrorMessage)
             && disk == old(disk)[old(nextName) := written]
    {
      var cleanText := CleanText(textToSpeak);
      var checked := ValidateLanguage(langCode);
      if checked.Failure? {
        return Rejected(UnsupportedMessage(checked.error));
      }
      var lang := checked.value;
      if !tempFileOk {
        return Failed(InternalErrorMessage);
      }
      var filePath := nextName;
      nextName := nextName + 1;
      disk := disk[filePath := []];
      providerCalls := providerCalls + [(cleanText, lang)];
      var saved := provider(cleanText, lang);
      match saved
      case Raised(written) =>
        disk := disk[filePath := written];
        return Failed(InternalErrorMessage);
      case Saved(mp3) =>
        disk := disk[filePath := mp3];
        return Streaming(filePath, mp3, AudioMpeg, false);
    }

    /**
     * Closing a response. Only a streamed file has a close hook; it removes
     * that file, and reports false when the file is already gone (where
     * `os.remove` would raise).
     */
    method Close(resp: AudioResponse) returns (removed: bool)
      requires Valid()
      modifies this
      ensures Valid()
      ensures removed <==> resp.Streaming? && resp.file in old(disk)
      ensures disk == if resp.Streaming? then old(disk) - {resp.file} else old(disk)
      ensures nextName == old(nextName) && providerCalls == old(providerCalls)
    {
      removed := resp.Streaming? && resp.file in disk;
      if resp.Streaming? {
        disk := disk - {resp.file};
      }
    }

    /**
     * One request from arrival to its final state: handled, then its response
     * closed. A rejected request or one whose file could not be created leaves
     * the disk as it was; a streamed request leaves it as it was once closed; a
     * provider failure leaves exactly one new file behind.
     */
    method Serve(langCode: string, textToSpeak: string, tempFileOk: bool, provider: Provider)
      returns (resp: AudioResponse)
      requires Valid()
      modifies this
      ensures Valid()
      // 400 exactly for an unsupported code, 200 exactly when the provider saved the MP3, 500 otherwise.
      ensures Status(resp) == 400 <==> ValidateLanguage(langCode).Failure?
      ensures Status(resp) == 200 <==>
        ValidateLanguage(langCode).Success? && tempFileOk && provider(CleanText(textToSpeak), Lower(langCode)).Saved?
      ensures Status(resp) == 500 <==>
        ValidateLanguage(langCode).Success? && (!tempFileOk || provider(CleanText(textToSpeak), Lower(langCode)).Raised?)
      ensures ValidateLanguage(langCode).Failure? ==>
        && resp == Rejected(UnsupportedMessage(ValidateLanguage(langCode).error))
        && disk == old(disk) && nextName == old(nextName) && providerCalls == old(providerCalls)
      ensures ValidateLanguage(langCode).Success? && !tempFileOk ==>
        && resp == Failed(InternalErrorMessage)
        && disk == old(disk) && nextName == old(nextName) && providerCalls == old(providerCalls)
      ensures ValidateLanguage(langCode).Success? && tempFileOk ==>
        && old(nextName) !in old(disk)
        && nextName == old(nextName) + 1
        && providerCalls == old(providerCalls) + [(CleanText(textToSpeak), Lower(langCode))]
        && match provider(CleanText(textToSpeak), Lower(langCode))
           case Saved(mp3) =>
             // The streamed file is gone once the response is closed.
             && resp == Streaming(old(nextName), mp3, AudioMpeg, false)
             && disk == old(disk)
           case Raised(written) =>
             // The file created for the request is left behind with what was written.
             && resp == Failed(InternalErrorMessage)
             && disk == old(disk)[old(nextName) := written]
    {
      resp := GenerateAudio(langCode, textToSpeak, tempFileOk, provider);
      var _ := Close(resp);
    }
  }
}
