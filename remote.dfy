/** What the application sees of the remote services it calls (the OpenAI
    embedding and chat endpoints, the Supabase table and its `match_papers`
    procedure): each call either returns a value or raises an exception,
    whose `str(e)` is all the application ever uses of it. */
module Remote {

  /** The result of one remote call. */
  datatype Outcome<T> = Returned(value: T) | Raised(message: string)

  /** An embedding vector. The application only passes it on, so its
      floating-point components are carried as opaque values. */
  type Embedding = seq<real>

  /** The embedding model both the upload page and the backend request. */
  const EmbeddingModel := "text-embedding-ada-002"

  /** `client.embeddings.create(input=..., model=...)`: what is sent. */
  datatype EmbedRequest = EmbedRequest(model: string, input: string)
}
