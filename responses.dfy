/** The HTTP outcomes the views return: 200, 400, 401 and 404. */
module Responses {

  datatype Status = Ok | BadRequest | Unauthorized | NotFound
}
