/** The JSON responses the two routes of server.js send. */
module Http {

  /** `{ message }` or `{ answer }`. */
  datatype Body = Message(text: string) | Answer(text: string)

  datatype Reply = Reply(status: nat, body: Body)
}
