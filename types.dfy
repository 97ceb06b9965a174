/** Shared records of the chat dashboard: the optional/result wrappers and the
    conversation message with its sender and web citations (types.ts). */
module Types {

  datatype Option<+T> = None | Some(value: T)

  datatype Result<+R, +E> = Success(value: R) | Failure(error: E)

  /** Who produced a message: the operator or the assistant ("SHROVATE"). */
  datatype Sender = User | System

  /** A grounding citation. The source reads `chunk.web?.title`, which may be
      undefined, so the title is optional; the uri is always non-empty. */
  datatype WebSource = WebSource(uri: string, title: Option<string>)

  /** Message ids: the literal "init" of the greeting, or the decimal rendering
      of a millisecond clock reading. */
  datatype MessageId = InitId | Stamp(millis: int)

  /** One turn of the conversation. An absent `isError` reads as false. */
  datatype Message = Message(
    id: MessageId,
    sender: Sender,
    text: string,
    imageUrl: Option<string>,
    videoUrl: Option<string>,
    audioData: Option<string>,
    webSources: Option<seq<WebSource>>,
    timestamp: int,
    isError: bool)
}
