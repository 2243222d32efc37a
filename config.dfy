/**
 * The configuration constants the scraper imports. Their values live in the
 * repository's configuration file, which is not part of this model, so they are
 * declared without a value: every property below holds whatever they are.
 */
module Config {
  /** `HOME_URI`: the site root used by `create_url` and `create_friends_url`. */
  const HomeUri: string

  /** `home_uri`: the site root `create_posts_uri` uses (a separate name in the source). */
  const PostsHomeUri: string

  /** `FRIENDS_PATH`: the path segment of a user's friend list. */
  const FriendsPath: string

  /** `NEXT_FRIENDS_TEXT`: the link text of the next page of a friend list. */
  const NextFriendsText: string

  /** `NEXT_FEED_TEXT`: the link text of the next page of a feed. */
  const NextFeedText: string
}
