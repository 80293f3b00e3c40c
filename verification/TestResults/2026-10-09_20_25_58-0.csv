TestResult.DisplayName,TestResult.Outcome,TestResult.Duration,TestResult.ResourceCount,RandomSeed
Numeric.ParseInt32NegativeOverflowBeforeJunk (correctness),Passed,00:00:00.4008336,1177378,2
Numeric.ParseInt32OverflowBeforeJunk (correctness),Passed,00:00:00.1118991,83271,2
