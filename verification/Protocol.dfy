/** The messages of a file transfer. */
module Protocol {
  import opened Chunking
  import opened FileServer

  /** file_chunk, from a sending client to the chat server and from the chat server to a receiving client. */
  datatype ChunkMessage = ChunkMessage(name: FileName, number: nat, data: Bytes, isLast: bool)

  datatype Status = Success | WrongChunkOrder | UploadFailed

  /** chunk_acknowledgment, from the chat server to the sending client. */
  datatype ChunkAck = ChunkAck(name: FileName, number: nat, status: Status)

  /** chunk_received, from a receiving client. */
  datatype ChunkReceipt = ChunkReceipt(name: FileName, number: nat)
}
