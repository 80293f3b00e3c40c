TestResult.DisplayName,TestResult.Outcome,TestResult.Duration,TestResult.ResourceCount,RandomSeed
Numeric.ParseInt32NegativeOverflowBeforeJunk (correctness),Passed,00:00:00.4784206,1416911,5
Numeric.ParseInt32OverflowBeforeJunk (correctness),Passed,00:00:00.1272878,83213,5
