/**
 * The responses the worker produces, reduced to a status and the JSON (or
 * raw) body it carries. Headers other than the content type and cache
 * control of a served blob are not modelled.
 */
module Http {
  import opened Types

  datatype Body =
    | ErrorBody(error: string)                                       // { success: false, error }
    | FileBody(file: FileResponse)                                   // { success: true, file }
    | ListBody(files: seq<FileResponse>, pagination: PaginationInfo) // { success: true, files, pagination }
    | MessageBody(message: string)                                   // { success: true, message }
    | LoginBody(token: string, message: string)                      // { success: true, token, message }
    | RootBody(name: string, version: string, status: string)
    | Served(data: seq<Byte>, contentType: string, cacheControl: string, contentLength: nat)
    | PlainText(text: string)
    | RedirectTo(location: string)
    | NoBody

  datatype Response = Response(status: int, body: Body)

  function Error(status: int, message: string): Response {
    Response(status, ErrorBody(message))
  }

  /** The 500 response a handler's `catch` builds from the message of what was thrown. */
  function ThrownResponse(fault: Fault): Response
    requires fault.Throws?
  {
    Error(500, fault.message)
  }
}
