/**
 * The community feed (src/components/CommunityFeed.tsx): the list of
 * public translations, one open comment panel, its comments and the
 * comment input. The backend queries are stated as pure functions over an
 * abstract table; the handlers take the query's answer as a parameter.
 * `loadComments` is started without being awaited, so a handler that
 * triggers it returns the translation id whose comments are to be
 * reloaded, and the caller then feeds the answer to `LoadComments`.
 */
module CommunityFeed {
  import opened Wrappers
  import opened Text
  import opened Records
  import opened Query

  /** The feed shows at most this many translations. */
  const FeedLimit := 20

  /** The `is_public` column. */
  predicate IsPublic(t: Translation) {
    t.isPublic
  }

  /** The `created_at` column. */
  function CreatedAt(t: Translation): int {
    t.createdAt
  }

  /** `.eq('is_public', true).order('created_at', { ascending: false }).limit(20)` on `translations`. */
  function PublicFeedQuery(table: seq<Translation>): seq<Translation> {
    Select(table, IsPublic, CreatedAt, FeedLimit)
  }

  /**
   * The feed holds public rows of the table only, newest first: the 20
   * newest, or every public row when there are fewer. No public row left
   * out is newer than a row shown.
   */
  lemma PublicFeedSpec(table: seq<Translation>)
    ensures var public := Filter(table, IsPublic);
      |PublicFeedQuery(table)| == if |public| < FeedLimit then |public| else FeedLimit
    ensures |Filter(table, IsPublic)| <= FeedLimit ==>
      multiset(PublicFeedQuery(table)) == multiset(Filter(table, IsPublic))
    ensures forall t :: t in PublicFeedQuery(table) ==> t in table && t.isPublic
    ensures forall i, j :: 0 <= i < j < |PublicFeedQuery(table)| ==>
      PublicFeedQuery(table)[i].createdAt >= PublicFeedQuery(table)[j].createdAt
    ensures forall t, i ::
      (t in table && t.isPublic && t !in PublicFeedQuery(table) && 0 <= i < |PublicFeedQuery(table)|)
      ==> PublicFeedQuery(table)[i].createdAt >= t.createdAt
  {
    SelectSpec(table, IsPublic, CreatedAt, FeedLimit);
    var r := PublicFeedQuery(table);
    forall t, i | t in table && t.isPublic && t !in r && 0 <= i < |r|
      ensures r[i].createdAt >= t.createdAt
    {
      SelectLeftOut(table, IsPublic, CreatedAt, FeedLimit, t, i);
    }
  }

  /** A table of at most 20 rows, all public, is shown in full. */
  lemma PublicFeedComplete(table: seq<Translation>)
    requires forall t :: t in table ==> t.isPublic
    requires |table| <= FeedLimit
    ensures multiset(PublicFeedQuery(table)) == multiset(table)
  {
    SelectSpec(table, IsPublic, CreatedAt, FeedLimit);
    assert multiset(Filter(table, IsPublic)) == multiset(table);
  }

  /** `.from('comments').select('*').eq('translation_id', id).order('created_at', { ascending: false })`. */
  function CommentsQuery(table: seq<Comment>, translationId: string): seq<Comment> {
    SortDesc(Filter(table, (c: Comment) => c.translationId == translationId), (c: Comment) => c.createdAt)
  }

  /**
   * The comments loaded for a translation are exactly its comments in the
   * table (each as often as it occurs there), newest first.
   */
  lemma CommentsQuerySpec(table: seq<Comment>, translationId: string)
    ensures forall c ::
      multiset(CommentsQuery(table, translationId))[c] == (if c.translationId == translationId then multiset(table)[c] else 0)
    ensures forall i, j :: 0 <= i < j < |CommentsQuery(table, translationId)| ==>
      CommentsQuery(table, translationId)[i].createdAt >= CommentsQuery(table, translationId)[j].createdAt
  {
    var keep := (c: Comment) => c.translationId == translationId;
    var f := Filter(table, keep);
    assert multiset(CommentsQuery(table, translationId)) == multiset(f);
  }

  class CommunityFeed {
    var translations: seq<Translation>
    var loading: bool
    var selectedTranslation: Option<string>
    var comments: seq<Comment>
    var newComment: string

    /**
     * The state on mount, before the first load of the feed completes.
     * Mounting also starts `loadPublicTranslations`; its completion is
     * `LoadPublicTranslations`, or `LoadFeedFrom` when the answer is the
     * backend's evaluation of the feed query.
     */
    constructor ()
      ensures translations == [] && loading && selectedTranslation == None
      ensures comments == [] && newComment == ""
    {
      translations := [];
      loading := true;
      selectedTranslation := None;
      comments := [];
      newComment := "";
    }

    /**
     * `loadPublicTranslations`, given the query's answer: rows replace the
     * feed (a null answer becomes the empty list), an error keeps the feed
     * as it was, and loading ends false either way.
     */
    method LoadPublicTranslations(response: Result<Option<seq<Translation>>, Failure>)
      modifies this`translations, this`loading
      ensures translations == if response.Ok? then response.value.GetOr([]) else old(translations)
      ensures !loading
    {
      match response {
        case Ok(data) =>
          translations := data.GetOr([]);
        case Err(_) =>
      }
      loading := false;
    }

    /**
     * `loadPublicTranslations` answered by the backend evaluating the feed
     * query on `table`: the feed then shows public rows of the table only,
     * newest first, the 20 newest or all public rows when there are fewer,
     * and no public row left out is newer than a row shown.
     */
    method LoadFeedFrom(table: seq<Translation>)
      modifies this`translations, this`loading
      ensures translations == PublicFeedQuery(table) && !loading
      ensures var public := Filter(table, IsPublic);
        |translations| == if |public| < FeedLimit then |public| else FeedLimit
      ensures forall t :: t in translations ==> t in table && t.isPublic
      ensures forall i, j :: 0 <= i < j < |translations| ==> translations[i].createdAt >= translations[j].createdAt
      ensures forall t, i ::
        (t in table && t.isPublic && t !in translations && 0 <= i < |translations|)
        ==> translations[i].createdAt >= t.createdAt
    {
      LoadPublicTranslations(Ok(Some(PublicFeedQuery(table))));
      PublicFeedSpec(table);
    }

    /**
     * `loadComments`, given the query's answer: rows replace the comments
     * (a null answer becomes the empty list); on an error the previous
     * comments are kept.
     */
    method LoadComments(response: Result<Option<seq<Comment>>, Failure>)
      modifies this`comments
      ensures comments == if response.Ok? then response.value.GetOr([]) else old(comments)
    {
      if response.Ok? {
        comments := response.value.GetOr([]);
      }
    }

    /**
     * `loadComments(translationId)` answered by the backend evaluating the
     * comments query on `table`: the panel then holds exactly that
     * translation's comments, each as often as in the table, newest first.
     */
    method LoadCommentsFrom(table: seq<Comment>, translationId: string)
      modifies this`comments
      ensures comments == CommentsQuery(table, translationId)
      ensures forall c :: multiset(comments)[c] == (if c.translationId == translationId then multiset(table)[c] else 0)
      ensures forall i, j :: 0 <= i < j < |comments| ==> comments[i].createdAt >= comments[j].createdAt
    {
      LoadComments(Ok(Some(CommentsQuery(table, translationId))));
      CommentsQuerySpec(table, translationId);
    }

    /** The comment input's `onChange`. */
    method SetNewComment(text: string)
      modifies this`newComment
      ensures newComment == text
    {
      newComment := text;
    }

    /**
     * `toggleComments`: toggling the open translation closes the panel and
     * empties the comments; toggling any other one opens it and triggers a
     * reload of its comments.
     */
    method ToggleComments(translationId: string) returns (reload: Option<string>)
      modifies this`selectedTranslation, this`comments
      ensures old(selectedTranslation) == Some(translationId) ==>
        selectedTranslation == None && comments == [] && reload == None
      ensures old(selectedTranslation) != Some(translationId) ==>
        selectedTranslation == Some(translationId) && comments == old(comments) && reload == Some(translationId)
    {
      if selectedTranslation == Some(translationId) {
        selectedTranslation := None;
        comments := [];
        reload := None;
      } else {
        selectedTranslation := Some(translationId);
        reload := Some(translationId);
      }
    }

    /**
     * `handleCommentSubmit`: whitespace-only input inserts nothing and
     * changes nothing. Otherwise one comment is inserted with the given
     * translation id, the trimmed text and the user's id (null when
     * signed out); if the backend accepts it the input is cleared and the
     * comments of that translation are reloaded, and if it rejects it the
     * input is kept for a retry.
     */
    method HandleCommentSubmit(translationId: string, user: Option<User>, insertFailed: bool)
      returns (inserted: Option<CommentInsert>, reload: Option<string>)
      modifies this`newComment
      ensures Trim(old(newComment)) == [] ==>
        inserted == None && reload == None && newComment == old(newComment)
      ensures Trim(old(newComment)) != [] ==>
        && inserted == Some(CommentInsert(translationId, IdOrNull(UserIdOf(user)), Trim(old(newComment))))
        && (insertFailed ==> newComment == old(newComment) && reload == None)
        && (!insertFailed ==> newComment == "" && reload == Some(translationId))
    {
      var content := Trim(newComment);
      if content == [] {
        return None, None;
      }
      inserted := Some(CommentInsert(translationId, IdOrNull(UserIdOf(user)), content));
      if insertFailed {
        reload := None;
      } else {
        newComment := "";
        reload := Some(translationId);
      }
    }
  }

  /**
   * Opening a translation's panel from the closed state and toggling the
   * same translation again closes the panel with no comments, whatever
   * the reload in between answered.
   */
  method ToggleSameTwice(feed: CommunityFeed, translationId: string, answer: Result<Option<seq<Comment>>, Failure>)
    requires feed.selectedTranslation == None
    modifies feed
    ensures feed.selectedTranslation == None && feed.comments == []
  {
    var reload := feed.ToggleComments(translationId);
    assert reload == Some(translationId);
    feed.LoadComments(answer);
    reload := feed.ToggleComments(translationId);
  }
}
