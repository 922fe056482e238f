/** The HTTP status codes the handlers write. */
module HttpStatus {
  const StatusOK: int := 200
  const StatusBadRequest: int := 400
  const StatusInternalServerError: int := 500
}
