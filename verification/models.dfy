/**
 * The records the triage code passes around: the YouTube comment and thread
 * as far as the code reads them, the classifier's verdict, and one entry of
 * an author's history.
 */
module Models {

  /** A point in time, as the store orders it; the textual formats are in `Store.TimeFormats`. */
  type Instant = int

  /** `youtube.Comment` with its snippet flattened: only the fields the code reads. */
  datatype Comment = Comment(
    id: string,
    authorChannelId: string,
    authorDisplayName: string,
    videoId: string,
    textDisplay: string,
    textOriginal: string,
    publishedAt: string)

  /** A reply under a thread; the code only looks at who wrote it. */
  datatype Reply = Reply(authorChannelId: string)

  /** `youtube.CommentThread`: a top-level comment and its replies (a nil reply list is empty). */
  datatype Thread = Thread(comment: Comment, replies: seq<Reply>)

  /**
   * The classifier's verdict. `sentimento` and `nota` are the fields of
   * `models.SentimentAnalysis`; `tema` is the topic the pipeline reads from it.
   * The values are whatever the decoded JSON held: nothing restricts them to
   * the ranges the prompt asks for.
   */
  datatype Verdict = Verdict(sentimento: string, nota: int, tema: string)

  /** `models.Comment`: one earlier comment of an author and the reply it got. */
  datatype HistoryEntry = HistoryEntry(commentText: string, response: string, createdAt: Instant)
}
