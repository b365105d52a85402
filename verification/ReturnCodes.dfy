/** The return codes of zlib.c that the model uses. */
module ReturnCodes {

  datatype Code = Z_OK | Z_STREAM_END | Z_DATA_ERROR | Z_BUF_ERROR
}
