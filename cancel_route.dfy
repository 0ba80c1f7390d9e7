/** The `/api/cancel-scraping` route: the HTTP face of its own copy of the
    cancellation flag. This is the copy the newer crawl polls. */
module CancelScrapingRoute {
  import opened ScraperControl

  /** The JSON bodies the two handlers send back. */
  datatype CancelResponse =
    | Status(message: string, isScrapingCanceled: bool)
    | Acknowledged(message: string)

  /** `GET`: reports the flag and leaves it as it is. */
  method Get(flag: CancelFlag) returns (r: CancelResponse)
    ensures r == Status("Scraper cancel status", flag.isScrapingCanceled)
  {
    r := Status("Scraper cancel status", flag.isScrapingCanceled);
  }

  /** `POST`: cancels, whatever the flag was before. */
  method Post(flag: CancelFlag) returns (r: CancelResponse)
    modifies flag
    ensures flag.isScrapingCanceled
    ensures r == Acknowledged("Scraping process has been canceled")
  {
    flag.CancelScraping();
    r := Acknowledged("Scraping process has been canceled");
  }
}
