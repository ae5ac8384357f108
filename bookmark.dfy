/** A bookmark as both scripts hold it: the (title, url) pair taken from `[title](url)`. */
module Bookmark {

  datatype Link = Link(title: string, url: string)
}
